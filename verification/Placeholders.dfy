/** Placeholder discipline: in the text of every compiled query the placeholders are $1, $2, ...
    from left to right, as many as there are arguments, and the arguments are the query's values
    in the order the query is written: SET values, then WHERE, then HAVING. */
module Placeholders {
  import opened Results
  import opened QueryAst
  import opened Truth
  import opened SqlReader
  import opened SqlCompiler
  import opened MeaningPreserved

  /** The placeholder numbers of a text, left to right. */
  function Numbers(ts: Sql): seq<nat> {
    if ts == [] then [] else (if ts[0].Ph? then [ts[0].index] else []) + Numbers(ts[1..])
  }

  // ----- the values of a query, in writing order -----

  function LeafArgs(c: Condition): seq<Arg> {
    if c.field == "" then [Pattern("", c.value, "")] else
    match c.operator
    case OpIsNull => []
    case OpIsNotNull => []
    case OpIn => if c.value.List? then Vals(c.value.items) else []
    case OpNotIn => if c.value.List? then Vals(c.value.items) else []
    case OpBetween => if c.value.Between? then [Val(c.value.low), Val(c.value.high)] else []
    case OpContains => [Pattern("%", c.value, "%")]
    case OpILike => [Pattern("%", c.value, "%")]
    case OpStartsWith => [Pattern("", c.value, "%")]
    case OpEndsWith => [Pattern("%", c.value, "")]
    case _ => [Val(c.value)]
  }

  function ConditionArgs(c: Condition): seq<Arg>
    decreases c
  {
    if c.nested.Some? then ClauseArgs(c.nested) else LeafArgs(c)
  }

  function AllArgs(cs: seq<Condition>): seq<Arg>
    decreases cs
  {
    if cs == [] then [] else ConditionArgs(cs[0]) + AllArgs(cs[1..])
  }

  function ClauseArgs(where: Option<WhereClause>): seq<Arg>
    decreases where
  {
    if where.None? then [] else AllArgs(where.value.conditions)
  }

  function QueryArgs(q: Query): seq<Arg> {
    (if q.kind == QueryUpdate then SetArgs(q.updates) else [])
    + ClauseArgs(q.where)
    + (if q.kind == QuerySelect then ClauseArgs(q.having) else [])
  }

  // ----- numbers of composed texts -----

  lemma {:induction false} NumbersAppend(s: Sql, t: Sql)
    ensures Numbers(s + t) == Numbers(s) + Numbers(t)
    decreases |s|
  {
    if s == [] {
      assert s + t == t;
    } else {
      DropFirst(s, t);
      NumbersAppend(s[1..], t);
    }
  }

  lemma DropFirst(s: Sql, t: Sql)
    requires s != []
    ensures (s + t)[0] == s[0] && (s + t)[1..] == s[1..] + t
  {
  }

  /** Two numbered parts among three that have none. */
  lemma NumbersOfFive(a: Sql, b: Sql, c: Sql, d: Sql, e: Sql)
    requires Numbers(a) == [] && Numbers(c) == [] && Numbers(e) == []
    ensures Numbers(a + b + c + d + e) == Numbers(b) + Numbers(d)
  {
    NumbersBetween(a, b, c);
    NumbersAppend(a + b + c, d);
    NumbersAppend(a + b + c + d, e);
  }

  lemma {:induction false} NoNumbers(s: Sql)
    requires forall i :: 0 <= i < |s| ==> !s[i].Ph?
    ensures Numbers(s) == []
    decreases |s|
  {
    if s != [] {
      NoNumbers(s[1..]);
    }
  }

  function Concat(parts: seq<Sql>): Sql {
    if parts == [] then [] else parts[0] + Concat(parts[1..])
  }

  /** Separators without placeholders do not change the numbers. */
  lemma {:induction false} NumbersOfJoin(parts: seq<Sql>, sep: Sql)
    requires Numbers(sep) == []
    ensures Numbers(Join(parts, sep)) == Numbers(Concat(parts))
    decreases |parts|
  {
    if |parts| == 1 {
      assert parts[1..] == [] && parts[0] + [] == parts[0];
    } else if |parts| > 1 {
      NumbersAppend(parts[0], sep);
      NumbersAppend(parts[0] + sep, Join(parts[1..], sep));
      NumbersAppend(parts[0], Concat(parts[1..]));
      NumbersOfJoin(parts[1..], sep);
    }
  }

  lemma NumbersBetween(a: Sql, s: Sql, b: Sql)
    requires Numbers(a) == [] && Numbers(b) == []
    ensures Numbers(a + s + b) == Numbers(s)
  {
    NumbersAppend(a, s);
    NumbersAppend(a + s, b);
  }

  lemma RangeAppend(n: nat, k: nat, m: nat)
    ensures Range(n, k) + Range(n + k, m) == Range(n, k + m)
  {
  }

  lemma {:induction false} NumbersOfList(n: nat, k: nat)
    ensures Numbers(Concat(PlaceholderParts(n, k))) == Range(n, k)
    decreases k
  {
    if k > 0 {
      var parts := PlaceholderParts(n, k);
      assert parts[1..] == PlaceholderParts(n + 1, k - 1);
      NumbersOfList(n + 1, k - 1);
      NumbersAppend(parts[0], Concat(parts[1..]));
      assert Numbers(parts[0]) == [n + 1] by { assert parts[0][1..] == []; }
      assert Range(n, k) == [n + 1] + Range(n + 1, k - 1);
    }
  }

  // ----- conditions -----

  /** The piece uses exactly the placeholders after `n`, one for each of its arguments. */
  predicate InStep(p: Piece, n: nat) {
    Numbers(p.sql) == Range(n, |p.args|)
  }

  lemma PrefixedTokens(negated: bool, s: Sql)
    ensures Numbers(NotPrefix(negated) + s) == Numbers(s)
  {
    NoNumbers(NotPrefix(negated));
    NumbersAppend(NotPrefix(negated), s);
  }

  lemma OneNumber(a: Sql, i: nat, b: Sql)
    requires Numbers(a) == [] && Numbers(b) == []
    ensures Numbers(a + [Ph(i)] + b) == [i]
  {
    NumbersBetween(a, [Ph(i)], b);
    assert [Ph(i)][1..] == [];
  }

  lemma SearchInStep(c: Condition, entity: EntityMeta, n: nat)
    requires c.field == "" && CompileLeaf(c, entity, n).Ok?
    ensures InStep(CompileLeaf(c, entity, n).value, n) && CompileLeaf(c, entity, n).value.args == LeafArgs(c)
  {
    var p := CompileLeaf(c, entity, n).value;
    var head := p.sql[..6];
    NoNumbers(head);
    NoNumbers([RParen]);
    OneNumber(head, n + 1, [RParen]);
    assert p.sql == head + [Ph(n + 1)] + [RParen];
    OneInStep(p, n);
  }

  lemma OneInStep(p: Piece, n: nat)
    requires |p.args| == 1 && Numbers(p.sql) == [n + 1]
    ensures InStep(p, n)
  {
    assert Range(n, 1) == [n + 1];
  }

  lemma BetweenNumbers(col: string, n: nat)
    ensures Numbers([Ident(col), KwBetween, Ph(n + 1), KwAnd, Ph(n + 2)]) == [n + 1, n + 2]
  {
    var first := [Ident(col), KwBetween] + [Ph(n + 1)] + [KwAnd];
    NoNumbers([Ident(col), KwBetween]);
    NoNumbers([KwAnd]);
    OneNumber([Ident(col), KwBetween], n + 1, [KwAnd]);
    NumbersAppend(first, [Ph(n + 2)]);
    assert [Ident(col), KwBetween, Ph(n + 1), KwAnd, Ph(n + 2)] == first + [Ph(n + 2)];
    assert [Ph(n + 2)][1..] == [];
  }

  lemma BetweenInStep(c: Condition, entity: EntityMeta, n: nat)
    requires c.field != "" && c.operator == OpBetween && CompileLeaf(c, entity, n).Ok?
    ensures InStep(CompileLeaf(c, entity, n).value, n) && CompileLeaf(c, entity, n).value.args == LeafArgs(c)
  {
    var col := MapColumn(entity, c.field);
    BetweenNumbers(col, n);
    PrefixedTokens(c.negated, [Ident(col), KwBetween, Ph(n + 1), KwAnd, Ph(n + 2)]);
    assert Range(n, 2) == [n + 1, n + 2];
  }

  lemma NullInStep(c: Condition, entity: EntityMeta, n: nat)
    requires c.field != "" && c.operator in {OpIsNull, OpIsNotNull}
    ensures CompileLeaf(c, entity, n).Ok?
    ensures InStep(CompileLeaf(c, entity, n).value, n) && CompileLeaf(c, entity, n).value.args == LeafArgs(c)
  {
    NoNumbers(CompileLeaf(c, entity, n).value.sql);
  }

  lemma LeafInStep(c: Condition, entity: EntityMeta, n: nat)
    requires CompileLeaf(c, entity, n).Ok?
    ensures InStep(CompileLeaf(c, entity, n).value, n) && CompileLeaf(c, entity, n).value.args == LeafArgs(c)
  {
    if c.field == "" {
      SearchInStep(c, entity, n);
    } else if c.operator in {OpIn, OpNotIn} {
      InListInStep(c, MapColumn(entity, c.field), c.operator == OpNotIn, n);
    } else if c.operator in {OpIsNull, OpIsNotNull} {
      NullInStep(c, entity, n);
    } else if c.operator == OpBetween {
      BetweenInStep(c, entity, n);
    } else {
      PlainInStep(c, entity, n);
    }
  }

  lemma PlainInStep(c: Condition, entity: EntityMeta, n: nat)
    requires c.field != "" && c.operator !in {OpIn, OpNotIn, OpIsNull, OpIsNotNull, OpBetween}
    requires CompileLeaf(c, entity, n).Ok?
    ensures InStep(CompileLeaf(c, entity, n).value, n) && CompileLeaf(c, entity, n).value.args == LeafArgs(c)
  {
    var col := MapColumn(entity, c.field);
    var json := c.operator == OpEquals && c.field in entity.jsonColumns;
    var head, last := [Ident(col), UnaryTest(c.operator)], [];
    if json {
      head, last := [Ident(col), AtGt], [AsJsonb];
    }
    NoNumbers(head);
    NoNumbers(last);
    OneNumber(head, n + 1, last);
    PrefixedTokens(c.negated, head + [Ph(n + 1)] + last);
    PlainText(c, entity, n, head, last);
    assert Range(n, 1) == [n + 1];
  }

  lemma PlainText(c: Condition, entity: EntityMeta, n: nat, head: Sql, last: Sql)
    requires c.field != "" && c.operator !in {OpIn, OpNotIn, OpIsNull, OpIsNotNull, OpBetween}
    requires CompileLeaf(c, entity, n).Ok?
    requires var json := c.operator == OpEquals && c.field in entity.jsonColumns;
      && head == [Ident(MapColumn(entity, c.field)), if json then AtGt else UnaryTest(c.operator)]
      && last == if json then [AsJsonb] else []
    ensures CompileLeaf(c, entity, n).value.sql == NotPrefix(c.negated) + (head + [Ph(n + 1)] + last)
    ensures CompileLeaf(c, entity, n).value.args == LeafArgs(c) && |LeafArgs(c)| == 1
  {
  }

  lemma InListInStep(c: Condition, col: string, notIn: bool, n: nat)
    requires CompileInList(c, col, notIn, n).Ok?
    ensures InStep(CompileInList(c, col, notIn, n).value, n)
    ensures CompileInList(c, col, notIn, n).value.args == Vals(c.value.items)
  {
    var k := |c.value.items|;
    var p := CompileInList(c, col, notIn, n).value;
    if k == 0 {
      NoNumbers(p.sql);
    } else {
      var list := Join(PlaceholderParts(n, k), [Comma]);
      var open := [Ident(col)] + (if notIn then [KwNot, KwIn] else [KwIn]) + [LParen];
      NoNumbers([Comma]);
      NoNumbers(open);
      NoNumbers([RParen]);
      NumbersOfJoin(PlaceholderParts(n, k), [Comma]);
      NumbersOfList(n, k);
      NumbersBetween(open, list, [RParen]);
      PrefixedTokens(c.negated, InTest(col, notIn, list));
    }
  }

  lemma {:induction false} ConditionInStep(c: Condition, entity: EntityMeta, n: nat)
    requires CompileCondition(c, entity, n).Ok?
    ensures InStep(CompileCondition(c, entity, n).value, n)
    ensures CompileCondition(c, entity, n).value.args == ConditionArgs(c)
    decreases c
  {
    if c.nested.None? {
      LeafInStep(c, entity, n);
    } else {
      ClauseInStep(c.nested, entity, n);
      NoNumbers([KwNot, LParen]);
      NoNumbers([RParen]);
      NumbersBetween([KwNot, LParen], CompileWhere(c.nested, entity, n).value.sql, [RParen]);
    }
  }

  lemma {:induction false} ConditionsInStep(cs: seq<Condition>, entity: EntityMeta, n: nat)
    requires CompileConditions(cs, entity, n).Ok?
    ensures var p := CompileConditions(cs, entity, n).value;
      Numbers(Concat(p.0)) == Range(n, |p.1|) && p.1 == AllArgs(cs)
    decreases cs
  {
    if cs != [] {
      var p := CompileCondition(cs[0], entity, n).value;
      var more := CompileConditions(cs[1..], entity, n + |p.args|).value;
      ConditionInStep(cs[0], entity, n);
      ConditionsInStep(cs[1..], entity, n + |p.args|);
      RangeAppend(n, |p.args|, |more.1|);
      if p.sql != [] {
        assert ([p.sql] + more.0)[1..] == more.0;
        NumbersAppend(p.sql, Concat(more.0));
      }
    }
  }

  lemma {:induction false} ClauseInStep(where: Option<WhereClause>, entity: EntityMeta, n: nat)
    requires CompileWhere(where, entity, n).Ok?
    ensures InStep(CompileWhere(where, entity, n).value, n)
    ensures CompileWhere(where, entity, n).value.args == ClauseArgs(where)
    decreases where
  {
    if where.Some? && where.value.conditions != [] {
      var cs, op := where.value.conditions, where.value.operator;
      ConditionsInStep(cs, entity, n);
      var parts := CompileConditions(cs, entity, n).value.0;
      NoNumbers([Connective(op)]);
      NumbersOfJoin(parts, [Connective(op)]);
      NoNumbers([LParen]);
      NoNumbers([RParen]);
      NumbersBetween([LParen], Join(parts, [Connective(op)]), [RParen]);
    }
  }

  lemma FilterInStep(where: Option<WhereClause>, entity: EntityMeta, n: nat)
    requires CompileFilter(where, entity, n).Ok?
    ensures InStep(CompileFilter(where, entity, n).value, n)
    ensures CompileFilter(where, entity, n).value.args == ClauseArgs(where)
  {
    ClauseInStep(where, entity, n);
    var s := CompileWhere(where, entity, n).value.sql;
    var soft := [Ident(entity.softDelete), KwIs, KwNull];
    var full := WithSoftDelete(s, entity.softDelete);
    NoNumbers(soft);
    NoNumbers([KwWhere]);
    NumbersAppend([KwWhere], full);
    if entity.softDelete == "" {
      assert full == s;
    } else if s == [] {
      assert full == soft;
    } else {
      BothJoined(s, soft);
      BothInStep(s, soft);
    }
  }

  lemma BothJoined(s: Sql, soft: Sql)
    ensures Join([s, soft], [RParen, KwAnd, LParen]) == s + [RParen, KwAnd, LParen] + soft
    ensures [s] + [soft] == [s, soft]
  {
    assert [s, soft][1..] == [soft];
  }

  lemma BothInStep(s: Sql, soft: Sql)
    requires Numbers(soft) == []
    ensures Numbers([LParen] + (s + [RParen, KwAnd, LParen] + soft) + [RParen]) == Numbers(s)
  {
    var between := [RParen, KwAnd, LParen];
    NoNumbers(between);
    NoNumbers([LParen]);
    NoNumbers([RParen]);
    NumbersAppend(s, between);
    NumbersAppend(s + between, soft);
    NumbersBetween([LParen], s + between + soft, [RParen]);
  }

  // ----- statements -----

  lemma {:induction false} NoNumbersInParts(parts: seq<Sql>)
    requires forall i :: 0 <= i < |parts| ==> Numbers(parts[i]) == []
    ensures Numbers(Join(parts, [Comma])) == []
    decreases |parts|
  {
    NoNumbers([Comma]);
    if |parts| > 1 {
      NoNumbersInParts(parts[1..]);
      NumbersAppend(parts[0], [Comma]);
      NumbersAppend(parts[0] + [Comma], Join(parts[1..], [Comma]));
    }
  }

  lemma ColumnsHaveNone(entity: EntityMeta, names: seq<string>)
    ensures Numbers(Join(ColumnParts(entity, names), [Comma])) == []
  {
    forall i | 0 <= i < |names|
      ensures Numbers(ColumnParts(entity, names)[i]) == []
    {
      NoNumbers(ColumnParts(entity, names)[i]);
    }
    NoNumbersInParts(ColumnParts(entity, names));
  }

  lemma TailHasNone(q: Query, entity: EntityMeta)
    ensures Numbers(SelectTail(q, entity)) == []
  {
    var parts := OrderParts(entity, q.orderBy);
    forall i | 0 <= i < |parts|
      ensures Numbers(parts[i]) == []
    {
      NoNumbers(parts[i]);
    }
    NoNumbersInParts(parts);
    NoNumbers([KwOrder, KwBy]);
    NumbersAppend([KwOrder, KwBy], Join(parts, [Comma]));
    var order := Prefixed([KwOrder, KwBy], Join(parts, [Comma]));
    var limit := if q.limit.Some? then [KwLimit, Number(q.limit.value)] else [];
    var offset := if q.offset.Some? then [KwOffset, Number(q.offset.value)] else [];
    NoNumbers(limit);
    NoNumbers(offset);
    NumbersBetween(order, limit, offset);
  }

  lemma HeadHasNone(q: Query, entity: EntityMeta)
    ensures Numbers(SelectHead(q, entity)) == [] && Numbers(GroupPart(q, entity)) == []
  {
    ColumnsHaveNone(entity, q.fields);
    ColumnsHaveNone(entity, q.groupBy);
    NoNumbers([KwSelect]);
    NoNumbers([Star]);
    NoNumbers([KwFrom, Ident(entity.tableName)]);
    NoNumbers([KwGroup, KwBy]);
    NumbersAppend([KwGroup, KwBy], Join(ColumnParts(entity, q.groupBy), [Comma]));
    NumbersBetween([KwSelect], if q.fields == [] then [Star] else Join(ColumnParts(entity, q.fields), [Comma]),
                   [KwFrom, Ident(entity.tableName)]);
  }

  lemma HavingInStep(having: Option<WhereClause>, entity: EntityMeta, n: nat)
    requires CompileHaving(having, entity, n).Ok?
    ensures InStep(CompileHaving(having, entity, n).value, n)
    ensures CompileHaving(having, entity, n).value.args == ClauseArgs(having)
  {
    ClauseInStep(having, entity, n);
    NoNumbers([KwHaving]);
    NumbersAppend([KwHaving], CompileWhere(having, entity, n).value.sql);
  }

  lemma SelectIs(q: Query, entity: EntityMeta, w: Piece, h: Piece)
    requires CompileFilter(q.where, entity, 0) == Ok(w) && CompileHaving(q.having, entity, |w.args|) == Ok(h)
    ensures CompileSelect(q, entity)
         == Ok(Piece(SelectHead(q, entity) + w.sql + GroupPart(q, entity) + h.sql + SelectTail(q, entity),
                     w.args + h.args))
  {
  }

  lemma SelectInStep(q: Query, entity: EntityMeta)
    requires q.kind == QuerySelect && CompileSelect(q, entity).Ok?
    ensures InStep(CompileSelect(q, entity).value, 0) && CompileSelect(q, entity).value.args == QueryArgs(q)
  {
    var w := CompileFilter(q.where, entity, 0).value;
    var h := CompileHaving(q.having, entity, |w.args|).value;
    FilterInStep(q.where, entity, 0);
    HavingInStep(q.having, entity, |w.args|);
    HeadHasNone(q, entity);
    TailHasNone(q, entity);
    Assembled(SelectHead(q, entity), w, GroupPart(q, entity), h, SelectTail(q, entity));
    SelectIs(q, entity, w, h);
    SelectArgs(q);
  }

  lemma SelectArgs(q: Query)
    requires q.kind == QuerySelect
    ensures QueryArgs(q) == ClauseArgs(q.where) + ClauseArgs(q.having)
  {
  }

  /** A statement of two numbered pieces. */
  lemma Assembled(a: Sql, w: Piece, b: Sql, h: Piece, c: Sql)
    requires Numbers(a) == [] && Numbers(b) == [] && Numbers(c) == []
    requires InStep(w, 0) && InStep(h, |w.args|)
    ensures InStep(Piece(a + w.sql + b + h.sql + c, w.args + h.args), 0)
  {
    NumbersOfFive(a, w.sql, b, h.sql, c);
    RangeAppend(0, |w.args|, |h.args|);
  }

  lemma RangeFirst(n: nat, k: nat)
    requires k > 0
    ensures Range(n, k) == [n + 1] + Range(n + 1, k - 1)
  {
  }

  lemma {:induction false} NumbersInARow(parts: seq<Sql>, i: nat)
    requires forall j :: 0 <= j < |parts| ==> Numbers(parts[j]) == [i + 1 + j]
    ensures Numbers(Concat(parts)) == Range(i, |parts|)
    decreases |parts|
  {
    if parts != [] {
      assert Numbers(parts[0]) == [i + 1 + 0];
      NumbersInARow(parts[1..], i + 1);
      NumbersAppend(parts[0], Concat(parts[1..]));
      RangeFirst(i, |parts|);
    }
  }

  lemma SetsInStep(us: seq<UpdateSet>, entity: EntityMeta)
    ensures Numbers(Concat(SetParts(us, entity))) == Range(0, |us|)
  {
    var parts := SetParts(us, entity);
    forall j | 0 <= j < |parts|
      ensures Numbers(parts[j]) == [0 + 1 + j]
    {
      SetInStep(us[j], entity, j + 1);
    }
    NumbersInARow(parts, 0);
  }

  lemma SetInStep(u: UpdateSet, entity: EntityMeta, i: nat)
    ensures Numbers(SetPart(u, entity, i)) == [i]
  {
    var col := Ident(MapColumn(entity, u.field));
    var head := [col, Cmp(Equal)] + SetHead(u.op, col);
    var tail := if u.op in {Append, Remove} then [RParen] else [];
    SetText(u, entity, i, head, tail);
    NoNumbers(head);
    NoNumbers(tail);
    OneNumber(head, i, tail);
  }

  /** What stands before the placeholder of an update. */
  function SetHead(op: UpdateOp, col: Tok): Sql {
    match op
    case SetValue => []
    case Increment => [col, Plus]
    case Decrement => [col, Minus]
    case Append => [FuncName(ArrayAppend), LParen, col, Comma]
    case Remove => [FuncName(ArrayRemove), LParen, col, Comma]
  }

  lemma SetText(u: UpdateSet, entity: EntityMeta, i: nat, head: Sql, tail: Sql)
    requires head == [Ident(MapColumn(entity, u.field)), Cmp(Equal)] + SetHead(u.op, Ident(MapColumn(entity, u.field)))
    requires tail == if u.op in {Append, Remove} then [RParen] else []
    ensures SetPart(u, entity, i) == head + [Ph(i)] + tail
  {
  }

  lemma UpdateInStep(q: Query, entity: EntityMeta)
    requires q.kind == QueryUpdate && CompileUpdate(q, entity).Ok?
    ensures InStep(CompileUpdate(q, entity).value, 0) && CompileUpdate(q, entity).value.args == QueryArgs(q)
  {
    var n := |q.updates|;
    var w := CompileFilter(q.where, entity, n).value;
    var parts := SetParts(q.updates, entity);
    var head, list := [KwUpdate, Ident(entity.tableName), KwSet], Join(parts, [Comma]);
    FilterInStep(q.where, entity, n);
    NoNumbers([Comma]);
    NoNumbers(head);
    NumbersOfJoin(parts, [Comma]);
    SetsInStep(q.updates, entity);
    AssembledTwo(head, Piece(list, SetArgs(q.updates)), w);
  }

  lemma AssembledTwo(a: Sql, w: Piece, h: Piece)
    requires Numbers(a) == [] && InStep(w, 0) && InStep(h, |w.args|)
    ensures InStep(Piece(a + w.sql + h.sql, w.args + h.args), 0)
  {
    Assembled(a, w, [], h, []);
    assert a + w.sql + [] + h.sql + [] == a + w.sql + h.sql;
  }

  lemma FilteredInStep(head: Sql, q: Query, entity: EntityMeta)
    requires forall i :: 0 <= i < |head| ==> !head[i].Ph?
    requires CompileFiltered(head, q, entity).Ok?
    ensures InStep(CompileFiltered(head, q, entity).value, 0)
    ensures CompileFiltered(head, q, entity).value.args == ClauseArgs(q.where)
  {
    FilterInStep(q.where, entity, 0);
    NoNumbers(head);
    NumbersAppend(head, CompileFilter(q.where, entity, 0).value.sql);
  }

  /** Every query that compiles: placeholders $1 to $n in order, each once, and the i-th argument
      is the i-th value of the query. */
  lemma PlaceholdersInStep(entities: map<string, EntityMeta>, q: Query)
    requires CompileQuery(entities, q).Ok?
    ensures Numbers(CompileQuery(entities, q).value.sql) == Range(0, |CompileQuery(entities, q).value.args|)
    ensures CompileQuery(entities, q).value.args == QueryArgs(q)
  {
    QueryInStep(entities[q.entity], q);
  }

  lemma QueryInStep(entity: EntityMeta, q: Query)
    requires CompileFor(q, entity).Ok?
    ensures InStep(CompileFor(q, entity).value, 0) && CompileFor(q, entity).value.args == QueryArgs(q)
  {
    match q.kind
    case QuerySelect => SelectInStep(q, entity);
    case QueryUpdate => UpdateInStep(q, entity);
    case QueryDelete => FilteredInStep(DeleteHead(entity), q, entity);
    case QueryCount =>
      FilteredInStep([KwSelect, FuncName(Count), LParen, Star, RParen, KwFrom, Ident(entity.tableName)], q, entity);
    case _ =>
      FilteredInStep([KwSelect, FuncName(AggregateFunc(q.kind)), LParen, Ident(MapColumn(entity, q.aggField)), RParen,
                      KwFrom, Ident(entity.tableName)], q, entity);
  }
}
