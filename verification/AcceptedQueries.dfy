/** What the parser guarantees about every query it accepts, and what that buys at the database:
    the text of an accepted query reads back, and selects exactly the rows its clauses select. */
module AcceptedQueries {
  import opened Results
  import opened QueryAst
  import opened QueryTokens
  import opened QueryParser
  import opened QueryMeaning
  import ParserRoundTrip
  import QueryRoundTrip
  import Truth
  import SqlReader
  import SqlCompiler
  import SqlStatements
  import MeaningPreserved
  import StatementMeaning
  import StatementExactness

  /** Tokens that can name a field have a name; the lexer makes no others. */
  predicate Named(ts: Tokens) {
    ts == [] || ((IdentifierOrKeyword(ts[0].kind) ==> ts[0].text != "") && Named(ts[1..]))
  }

  /** What holds of a parsed clause: nothing empty, no Not flag at risk, nesting within bounds. */
  predicate GoodCondition(c: Condition, depth: nat) {
    && ReadableCondition(c) && FaithfulCondition(c) && !Absent(c)
    && depth + ParserRoundTrip.Nesting(c) <= MAX_DEPTH
  }

  predicate GoodConditions(cs: seq<Condition>, depth: nat) {
    && cs != [] && AllReadable(cs) && AllFaithful(cs) && !AllAbsent(cs)
    && depth + ParserRoundTrip.MaxNesting(cs) <= MAX_DEPTH
  }

  predicate GoodClause(w: WhereClause, depth: nat) {
    GoodConditions(w.conditions, depth)
  }

  lemma {:induction false} ConditionsAppend(cs: seq<Condition>, c: Condition, depth: nat)
    requires GoodConditions(cs, depth) && GoodCondition(c, depth)
    ensures GoodConditions(cs + [c], depth)
    decreases |cs|
  {
    assert (cs + [c])[1..] == cs[1..] + [c];
    if |cs| == 1 {
      assert cs[1..] + [c] == [c];
      OneCondition(c, depth);
    } else {
      TailGood(cs, depth);
      if AllAbsent(cs[1..]) {
        AppendToAbsent(cs[1..], c, depth);
      } else {
        ConditionsAppend(cs[1..], c, depth);
      }
    }
  }

  lemma OneCondition(c: Condition, depth: nat)
    requires GoodCondition(c, depth)
    ensures GoodConditions([c], depth)
  {
    assert [c][1..] == [];
  }

  lemma TailGood(cs: seq<Condition>, depth: nat)
    requires |cs| > 1 && GoodConditions(cs, depth)
    ensures AllReadable(cs[1..]) && AllFaithful(cs[1..]) && depth + ParserRoundTrip.MaxNesting(cs[1..]) <= MAX_DEPTH
  {
  }

  lemma {:induction false} AppendToAbsent(cs: seq<Condition>, c: Condition, depth: nat)
    requires AllReadable(cs) && AllFaithful(cs) && depth + ParserRoundTrip.MaxNesting(cs) <= MAX_DEPTH
    requires GoodCondition(c, depth)
    ensures GoodConditions(cs + [c], depth)
    decreases |cs|
  {
    if cs == [] {
      assert cs + [c] == [c];
      OneCondition(c, depth);
    } else {
      assert (cs + [c])[1..] == cs[1..] + [c];
      AppendToAbsent(cs[1..], c, depth);
    }
  }

  lemma {:induction false} ValueKeepsNames(ts: Tokens)
    requires Named(ts) && ParseValue(ts).Ok?
    ensures Named(ParseValue(ts).value.1)
    decreases |ts|, 1
  {
    NamedNext(ts);
    if Kind(ts) == TokenLBracket {
      ItemsKeepNames(Next(ts));
    } else if Kind(ts) == TokenIdent {
      BareItemsKeepNames(Next(ts));
    }
  }

  lemma {:induction false} ItemsKeepNames(ts: Tokens)
    requires Named(ts) && ParseItems(ts).Ok?
    ensures Named(ParseItems(ts).value.1)
    decreases |ts|, 2
  {
    if Kind(ts) != TokenRBracket {
      ValueKeepsNames(ts);
      var after := ParseValue(ts).value.1;
      if Kind(after) == TokenComma {
        ItemsKeepNames(Next(after));
      }
    }
  }

  lemma {:induction false} BareItemsKeepNames(ts: Tokens)
    requires Named(ts)
    ensures Named(BareItems(ts).1)
    decreases |ts|
  {
    if Kind(ts) == TokenComma && Kind(Next(ts)) in {TokenIdent, TokenString, TokenNumber} {
      BareItemsKeepNames(Next(Next(ts)));
    }
  }

  lemma NoNotIn(kind: TokenType)
    ensures SimpleOperator(kind) != Some(OpNotIn)
  {
  }

  /** A test keeps its field and is never NOT IN: that is written as a negated IN. */
  lemma TestShape(field: string, negated: bool, ts: Tokens)
    requires ParseTest(field, negated, ts).Ok?
    ensures var c := ParseTest(field, negated, ts).value.0;
      c.field == field && c.nested.None? && c.operator != OpNotIn
  {
    NoNotIn(Kind(ts));
  }

  lemma LeafIsGood(c: Condition, depth: nat)
    requires c.nested.None? && c.field != "" && c.operator != OpNotIn && depth <= MAX_DEPTH
    ensures GoodCondition(c, depth)
  {
  }

  lemma TestKeepsNames(field: string, negated: bool, ts: Tokens)
    requires Named(ts) && ParseTest(field, negated, ts).Ok?
    ensures Named(ParseTest(field, negated, ts).value.1)
  {
    NamedNext(ts);
    if Kind(ts) == TokenIs {
      NamedNext(Next(ts));
      NamedNext(Next(Next(ts)));
    } else {
      ValueKeepsNames(Next(ts));
      if Kind(ts) == TokenBetween {
        NamedNext(ParseValue(Next(ts)).value.1);
        ValueKeepsNames(Next(ParseValue(Next(ts)).value.1));
      }
    }
  }

  lemma TestIsGood(field: string, negated: bool, ts: Tokens, depth: nat)
    requires Named(ts) && field != "" && depth <= MAX_DEPTH && ParseTest(field, negated, ts).Ok?
    ensures GoodCondition(ParseTest(field, negated, ts).value.0, depth)
    ensures Named(ParseTest(field, negated, ts).value.1)
  {
    TestShape(field, negated, ts);
    LeafIsGood(ParseTest(field, negated, ts).value.0, depth);
    TestKeepsNames(field, negated, ts);
  }

  lemma {:induction false} ConditionIsGood(ts: Tokens, depth: nat)
    requires Named(ts) && depth <= MAX_DEPTH && ParseCondition(ts, depth).Ok?
    ensures GoodCondition(ParseCondition(ts, depth).value.0, depth)
    ensures Named(ParseCondition(ts, depth).value.1)
    decreases |ts|, 2
  {
    var negated := Kind(ts) == TokenNot;
    var body := if negated then Next(ts) else ts;
    if Kind(body) == TokenLParen {
      GroupIsGood(body, depth);
    } else {
      TestIsGood(Current(body).text, negated, Next(body), depth);
    }
  }

  lemma {:induction false} GroupIsGood(ts: Tokens, depth: nat)
    requires Named(ts) && Kind(ts) == TokenLParen && depth <= MAX_DEPTH && ParseGroup(ts, depth).Ok?
    ensures depth < MAX_DEPTH && GoodClause(ParseGroup(ts, depth).value.0, depth + 1)
    ensures Named(ParseGroup(ts, depth).value.1)
    decreases |ts|, 1
  {
    GroupStep(ts, depth);
    ClauseIsGood(Next(ts), depth + 1);
    NamedNext(ParseWhere(Next(ts), depth + 1).value.1);
  }

  lemma GroupStep(ts: Tokens, depth: nat)
    requires Kind(ts) == TokenLParen && ParseGroup(ts, depth).Ok?
    ensures depth < MAX_DEPTH && ParseWhere(Next(ts), depth + 1).Ok?
    ensures var nested := ParseWhere(Next(ts), depth + 1).value;
      ParseGroup(ts, depth).value == (nested.0, Next(nested.1))
  {
  }

  lemma {:induction false} ClauseIsGood(ts: Tokens, depth: nat)
    requires Named(ts) && depth <= MAX_DEPTH && ParseWhere(ts, depth).Ok?
    ensures GoodClause(ParseWhere(ts, depth).value.0, depth)
    ensures Named(ParseWhere(ts, depth).value.1)
    decreases |ts|, 3
  {
    ConditionIsGood(ts, depth);
    var first := ParseCondition(ts, depth).value;
    OneCondition(first.0, depth);
    TailIsGood(WhereClause([first.0], LogicalAnd), first.1, depth);
  }

  lemma {:induction false} TailIsGood(clause: WhereClause, ts: Tokens, depth: nat)
    requires Named(ts) && depth <= MAX_DEPTH && GoodClause(clause, depth) && WhereTail(clause, ts, depth).Ok?
    ensures GoodClause(WhereTail(clause, ts, depth).value.0, depth)
    ensures Named(WhereTail(clause, ts, depth).value.1)
    decreases |ts|, 3
  {
    if Kind(ts) in {TokenAnd, TokenOr} {
      ConditionIsGood(Next(ts), depth);
      var c := ParseCondition(Next(ts), depth).value;
      ConditionsAppend(clause.conditions, c.0, depth);
      var op := if Kind(ts) == TokenOr then LogicalOr else clause.operator;
      TailIsGood(WhereClause(clause.conditions + [c.0], op), c.1, depth);
    }
  }

  // ----- queries -----

  predicate GoodQuery(q: Query) {
    && (q.where.Some? ==> GoodClause(q.where.value, 0))
    && (q.having.Some? ==> GoodClause(q.having.value, 0))
  }

  lemma {:induction false} IdentsKeepNames(ts: Tokens, first: bool)
    requires Named(ts) && ParseIdents(ts, first).Ok?
    ensures Named(ParseIdents(ts, first).value.1)
    decreases |ts|
  {
    if IdentifierOrKeyword(Kind(ts)) && Kind(Next(ts)) == TokenComma {
      IdentsKeepNames(Next(Next(ts)), false);
    }
  }

  lemma {:induction false} OrdersKeepNames(ts: Tokens, first: bool)
    requires Named(ts) && ParseOrders(ts, first).Ok?
    ensures Named(ParseOrders(ts, first).value.1)
    decreases |ts|
  {
    if IdentifierOrKeyword(Kind(ts)) && Kind(ParseOrder(ts).1) == TokenComma {
      NamedNext(ts);
      NamedNext(Next(ts));
      NamedNext(ParseOrder(ts).1);
      OrdersKeepNames(Next(ParseOrder(ts).1), false);
    }
  }

  lemma {:induction false} UpdatesKeepNames(ts: Tokens, first: bool)
    requires Named(ts) && ParseUpdates(ts, first).Ok?
    ensures Named(ParseUpdates(ts, first).value.1)
    ensures first ==> ParseUpdates(ts, first).value.0 != []
    decreases |ts|
  {
    if IdentifierOrKeyword(Kind(ts)) {
      ValueKeepsNames(Next(Next(ts)));
      var after := ParseUpdateSet(ts).value.1;
      if Kind(after) == TokenComma {
        UpdatesKeepNames(Next(after), false);
      }
    }
  }

  /** A parsed clause keeps what the query had, and its own conditions are good. */
  predicate KeepsGood(q: Query, r: (Query, Tokens)) {
    GoodQuery(r.0) && Named(r.1) && r.0.kind == q.kind && r.0.updates == q.updates
  }

  lemma NamesKeepGood(q: Query, keyword: TokenType, rest: Tokens)
    requires Named(rest) && GoodQuery(q) && ParseNames(q, keyword, rest).Ok?
    ensures KeepsGood(q, ParseNames(q, keyword, rest).value)
  {
    NamedNext(rest);
    IdentsKeepNames(if keyword == TokenGroup then SkipBy(rest) else rest, true);
  }

  lemma FilterKeepsGood(q: Query, keyword: TokenType, rest: Tokens)
    requires Named(rest) && GoodQuery(q) && ParseFilter(q, keyword, rest).Ok?
    ensures KeepsGood(q, ParseFilter(q, keyword, rest).value)
  {
    ClauseIsGood(rest, 0);
  }

  lemma OrderByKeepsGood(q: Query, rest: Tokens)
    requires Named(rest) && GoodQuery(q) && ParseOrderBy(q, rest).Ok?
    ensures KeepsGood(q, ParseOrderBy(q, rest).value)
  {
    NamedNext(rest);
    OrdersKeepNames(SkipBy(rest), true);
  }

  lemma BoundKeepsGood(q: Query, keyword: TokenType, rest: Tokens)
    requires Named(rest) && GoodQuery(q) && ParseBound(q, keyword, rest).Ok?
    ensures KeepsGood(q, ParseBound(q, keyword, rest).value)
  {
    NamedNext(rest);
  }

  lemma ClauseKeepsGood(q: Query, ts: Tokens)
    requires Named(ts) && GoodQuery(q) && ParseClause(q, ts).Ok?
    ensures KeepsGood(q, ParseClause(q, ts).value)
  {
    var keyword, rest := Kind(ts), Next(ts);
    NamedNext(ts);
    if keyword in {TokenWith, TokenInclude, TokenGroup, TokenGroupBy} {
      NamesKeepGood(q, keyword, rest);
    } else if keyword in {TokenWhere, TokenHaving} {
      FilterKeepsGood(q, keyword, rest);
    } else if keyword == TokenOrder {
      OrderByKeepsGood(q, rest);
    } else {
      BoundKeepsGood(q, keyword, rest);
    }
  }

  lemma {:induction false} ClausesKeepGood(q: Query, ts: Tokens)
    requires Named(ts) && GoodQuery(q) && ParseClauses(q, ts).Ok?
    ensures var r := ParseClauses(q, ts).value; GoodQuery(r) && r.kind == q.kind && r.updates == q.updates
    decreases |ts|
  {
    if Kind(ts) != TokenEOF {
      ClauseKeepsGood(q, ts);
      ClausesKeepGood(ParseClause(q, ts).value.0, ParseClause(q, ts).value.1);
    }
  }

  lemma NamedNext(ts: Tokens)
    requires Named(ts)
    ensures Named(Next(ts)) && (IdentifierOrKeyword(Kind(ts)) ==> Current(ts).text != "")
  {
  }

  lemma GroupIsGoodCondition(w: WhereClause, negated: bool)
    requires GoodClause(w, 1)
    ensures GoodCondition(Condition("", OpEquals, Null, negated, Some(w)), 0)
  {
  }

  /** A search term, a group, a flag, or a name with an operator: what each becomes. */
  lemma TermIsGood(ts: Tokens)
    requires Named(ts) && Kind(ts) in {TokenString, TokenTilde} && ParseSimpleFilter(ts).Ok?
    ensures ParseSimpleFilter(ts).value.0.nested.None? && !ParseSimpleFilter(ts).value.0.negated
    ensures ParseSimpleFilter(ts).value.0.operator != OpNotIn && Named(ParseSimpleFilter(ts).value.1)
  {
    NamedNext(ts);
    NamedNext(Next(ts));
  }

  lemma NamedFilterIsGood(ts: Tokens, body: Tokens)
    requires Named(body) && body == (if Kind(ts) == TokenNot then Next(ts) else ts)
    requires Kind(ts) !in {TokenString, TokenTilde} && Kind(body) != TokenLParen && ParseSimpleFilter(ts).Ok?
    ensures var c := ParseSimpleFilter(ts).value.0;
      c.nested.None? && c.field != "" && c.operator != OpNotIn
    ensures Named(ParseSimpleFilter(ts).value.1)
  {
    NamedNext(body);
    NamedNext(Next(body));
    OperatorIsNotNotIn(Kind(Next(body)));
    if FilterOperator(Kind(Next(body))).Some? {
      ValueKeepsNames(Next(Next(body)));
    }
  }

  lemma OperatorIsNotNotIn(kind: TokenType)
    ensures FilterOperator(kind) != Some(OpNotIn)
  {
  }

  lemma GroupFilterIsGood(ts: Tokens, body: Tokens)
    requires Named(body) && body == (if Kind(ts) == TokenNot then Next(ts) else ts)
    requires Kind(body) == TokenLParen && ParseSimpleFilter(ts).Ok?
    ensures GoodCondition(ParseSimpleFilter(ts).value.0, 0) && Named(ParseSimpleFilter(ts).value.1)
  {
    GroupIsGood(body, 0);
    GroupIsGoodCondition(ParseGroup(body, 0).value.0, Kind(ts) == TokenNot);
  }

  lemma PlainIsGood(c: Condition)
    requires c.nested.None? && c.operator != OpNotIn && (c.negated ==> c.field != "")
    ensures GoodCondition(c, 0)
  {
  }

  lemma FilterIsGood(ts: Tokens)
    requires Named(ts) && ParseSimpleFilter(ts).Ok?
    ensures GoodCondition(ParseSimpleFilter(ts).value.0, 0) && Named(ParseSimpleFilter(ts).value.1)
  {
    if Kind(ts) in {TokenString, TokenTilde} {
      TermIsGood(ts);
      PlainIsGood(ParseSimpleFilter(ts).value.0);
    } else {
      var body := if Kind(ts) == TokenNot then Next(ts) else ts;
      NamedNext(ts);
      if Kind(body) == TokenLParen {
        GroupFilterIsGood(ts, body);
      } else {
        NamedFilterIsGood(ts, body);
        PlainIsGood(ParseSimpleFilter(ts).value.0);
      }
    }
  }

  lemma {:induction false} FiltersAreGood(ts: Tokens)
    requires Named(ts) && SimpleFilters(ts).Ok?
    ensures SimpleFilters(ts).value == [] || GoodConditions(SimpleFilters(ts).value, 0)
    decreases |ts|
  {
    if Kind(ts) != TokenEOF {
      FilterIsGood(ts);
      var c := ParseSimpleFilter(ts).value;
      FiltersAreGood(c.1);
      GoodFirst(c.0, SimpleFilters(c.1).value);
    }
  }

  lemma GoodFirst(c: Condition, more: seq<Condition>)
    requires GoodCondition(c, 0) && (more == [] || GoodConditions(more, 0))
    ensures GoodConditions([c] + more, 0)
  {
    assert ([c] + more)[1..] == more;
  }

  lemma EntityKeepsGood(q: Query, ts: Tokens)
    requires Named(ts) && GoodQuery(q) && ParseEntity(q, ts).Ok?
    ensures var r := ParseEntity(q, ts).value;
      GoodQuery(r.0) && Named(r.1) && r.0.kind == q.kind && r.0.updates == q.updates
  {
    NamedNext(ts);
  }

  lemma SkipKeepsNames(ts: Tokens)
    requires Named(ts)
    ensures Named(SkipFrom(ts))
  {
  }

  /** An entity name, after an optional FROM, and clauses. */
  lemma RestIsGood(q: Query, ts: Tokens)
    requires Named(ts) && GoodQuery(q) && ParseEntity(q, SkipFrom(ts)).Ok?
    requires var named := ParseEntity(q, SkipFrom(ts)).value; ParseClauses(named.0, named.1).Ok?
    ensures var named := ParseEntity(q, SkipFrom(ts)).value;
      var r := ParseClauses(named.0, named.1).value;
      GoodQuery(r) && r.kind == q.kind && r.updates == q.updates
  {
    SkipKeepsNames(ts);
    EntityKeepsGood(q, SkipFrom(ts));
    var named := ParseEntity(q, SkipFrom(ts)).value;
    ClausesKeepGood(named.0, named.1);
  }

  lemma SelectIsGood(ts: Tokens)
    requires Named(ts) && ParseSelect(ts).Ok?
    ensures GoodQuery(ParseSelect(ts).value) && ParseSelect(ts).value.kind == QuerySelect
  {
    var body := Next(ts);
    var listed := Kind(body) == TokenIdent && Current(body).text != "*" && Peek(body).kind in {TokenComma, TokenFrom};
    NamedNext(ts);
    if listed {
      IdentsKeepNames(body, true);
      var fields := ParseIdents(body, true).value;
      RestIsGood(Blank(QuerySelect).(fields := fields.0), fields.1);
    } else {
      RestIsGood(Blank(QuerySelect).(fields := []), body);
    }
  }

  lemma AggregateFieldKeepsGood(q: Query, ts: Tokens)
    requires Named(ts) && GoodQuery(q) && ParseAggregateField(q, ts).Ok?
    ensures var r := ParseAggregateField(q, ts).value; GoodQuery(r.0) && Named(r.1) && r.0.kind == q.kind
  {
    NamedNext(ts);
    NamedNext(Next(ts));
    NamedNext(Next(Next(ts)));
  }

  lemma AggregateIsGood(kind: QueryType, ts: Tokens)
    requires Named(ts) && ParseAggregate(kind, ts).Ok?
    ensures GoodQuery(ParseAggregate(kind, ts).value) && ParseAggregate(kind, ts).value.kind == kind
  {
    NamedNext(ts);
    AggregateFieldKeepsGood(Blank(kind), Next(ts));
    var field := ParseAggregateField(Blank(kind), Next(ts)).value;
    RestIsGood(field.0, field.1);
  }

  lemma UpdateIsGood(ts: Tokens)
    requires Named(ts) && ParseUpdate(ts).Ok?
    ensures GoodQuery(ParseUpdate(ts).value) && ParseUpdate(ts).value.updates != []
  {
    NamedNext(ts);
    EntityKeepsGood(Blank(QueryUpdate), Next(ts));
    var named := ParseEntity(Blank(QueryUpdate), Next(ts)).value;
    NamedNext(named.1);
    UpdatesKeepNames(Next(named.1), true);
    var updates := ParseUpdates(Next(named.1), true).value;
    ClausesKeepGood(named.0.(updates := updates.0), updates.1);
  }

  lemma DeleteIsGood(ts: Tokens)
    requires Named(ts) && ParseDelete(ts).Ok?
    ensures GoodQuery(ParseDelete(ts).value) && ParseDelete(ts).value.kind == QueryDelete
  {
    NamedNext(ts);
    RestIsGood(Blank(QueryDelete), Next(ts));
  }

  lemma FilterQueryIsGood(ts: Tokens)
    requires Named(ts) && ParseSimpleFilters(ts).Ok?
    ensures GoodQuery(ParseSimpleFilters(ts).value) && ParseSimpleFilters(ts).value.kind == QuerySelect
  {
    FiltersAreGood(ts);
  }

  /** Which parse function a query came from. */
  lemma Dispatch(ts: Tokens)
    ensures ParseQuery(ts) ==
      if Kind(ts) == TokenEOF then Err(UnexpectedEOF)
      else if Kind(ts) == TokenSelect then ParseSelect(ts)
      else if Kind(ts) == TokenUpdate then ParseUpdate(ts)
      else if Kind(ts) == TokenDelete then ParseDelete(ts)
      else if Kind(ts) in {TokenCount, TokenSum, TokenAvg, TokenMin, TokenMax}
        then ParseAggregate(AggregateKind(Kind(ts)), ts)
      else ParseSimpleFilters(ts)
  {
  }

  lemma AcceptedQuery(ts: Tokens)
    requires Named(ts) && ParseQuery(ts).Ok?
    ensures var q := ParseQuery(ts).value; GoodQuery(q) && (q.kind == QueryUpdate ==> q.updates != [])
  {
    Dispatch(ts);
    var kind := Kind(ts);
    if kind == TokenSelect {
      SelectIsGood(ts);
    } else if kind == TokenUpdate {
      UpdateIsGood(ts);
    } else if kind == TokenDelete {
      DeleteIsGood(ts);
    } else if kind in {TokenCount, TokenSum, TokenAvg, TokenMin, TokenMax} {
      AggregateIsGood(AggregateKind(kind), ts);
    } else {
      FilterQueryIsGood(ts);
    }
  }

  function AggregateKind(kind: TokenType): QueryType {
    match kind
    case TokenSum => QuerySum
    case TokenAvg => QueryAvg
    case TokenMin => QueryMin
    case TokenMax => QueryMax
    case _ => QueryCount
  }

  lemma GoodIsReadable(q: Query)
    requires GoodQuery(q) && (q.kind == QueryUpdate ==> q.updates != [])
    ensures StatementMeaning.ReadableQuery(q) && Faithful(q.where) && Faithful(q.having)
    ensures QueryRoundTrip.QueryNesting(q) <= MAX_DEPTH
  {
  }

  /** Every accepted query is readable, faithful and nests at most ten groups deep. */
  lemma AcceptedIsGood(ts: Tokens)
    requires Named(ts) && ParseQuery(ts).Ok?
    ensures var q := ParseQuery(ts).value;
      StatementMeaning.ReadableQuery(q) && Faithful(q.where) && Faithful(q.having)
      && QueryRoundTrip.QueryNesting(q) <= MAX_DEPTH
  {
    AcceptedQuery(ts);
    GoodIsReadable(ParseQuery(ts).value);
  }

  /** The filter expression is what the WHERE text reads as. */
  lemma FilterExprIs(where: Option<WhereClause>, entity: EntityMeta, n: nat, sql: SqlReader.Sql, e: SqlReader.SqlExpr)
    requires SqlCompiler.CompileFilter(where, entity, n).Ok? && Readable(where)
    requires sql == SqlCompiler.CompileWhereWithSoftDelete(where, entity, n).value.sql
    requires sql != [] ==> SqlReader.ReadCondition(sql) == Some((e, []))
    ensures StatementMeaning.FilterExpr(where, entity, n) == if sql == [] then None else Some(e)
  {
    StatementMeaning.FilterReads(where, entity, n, []);
    var text := SqlCompiler.CompileFilter(where, entity, n).value.sql;
    assert text + [] == text;
    if sql != [] {
      assert text == [SqlReader.KwWhere] + sql && text[1..] == sql;
    }
  }

  /** The WHERE a query compiles to chooses exactly the rows on which its clause, together with
      the soft-delete test, is true. */
  lemma FilterChooses(
    where: Option<WhereClause>, entity: EntityMeta, n: nat, db: Truth.Interp, row: Truth.Row, args: seq<Truth.Arg>)
    requires SqlCompiler.CompileFilter(where, entity, n).Ok? && Readable(where) && Faithful(where)
    requires MeaningPreserved.Placed(args, n, SqlCompiler.CompileFilter(where, entity, n).value.args)
    ensures SqlStatements.Chosen(db, StatementMeaning.FilterExpr(where, entity, n), args, row)
       <==> MeaningPreserved.FilterTruth(db, entity, where, row) == Truth.True
  {
    var e := MeaningPreserved.FilterMeaning(where, entity, n, [], db, row, args);
    var sql := SqlCompiler.CompileWhereWithSoftDelete(where, entity, n).value.sql;
    assert sql + [] == sql;
    FilterExprIs(where, entity, n, sql, e);
  }

  /** HAVING has the truth of its clause on every row of groups. */
  lemma HavingMeaning(
    having: Option<WhereClause>, entity: EntityMeta, n: nat, db: Truth.Interp, row: Truth.Row, args: seq<Truth.Arg>)
    requires SqlCompiler.CompileWhere(having, entity, n).Ok? && Readable(having) && Faithful(having)
    requires !EmptyClause(having)
      && MeaningPreserved.Placed(args, n, SqlCompiler.CompileWhere(having, entity, n).value.args)
    ensures StatementMeaning.ClauseExpr(having, entity, n).Some?
    ensures ClauseTruth(db, entity, having, row)
         == Some(SqlReader.Eval(db, StatementMeaning.ClauseExpr(having, entity, n).value, row, args))
  {
    var e := MeaningPreserved.ClauseMeaning(having, entity, n, [], db, row, args);
    var sql := SqlCompiler.CompileWhere(having, entity, n).value.sql;
    assert sql + [] == sql;
    StatementMeaning.ClauseReads(having, entity, n);
    MeaningPreserved.FactorIsCondition(sql, StatementMeaning.ClauseExpr(having, entity, n).value, []);
  }

  /** How the arguments of a query are divided between SET, WHERE and HAVING. */
  lemma ArgsPlaced(q: Query, entity: EntityMeta)
    requires SqlCompiler.CompileFor(q, entity).Ok?
    ensures var n := if q.kind == QueryUpdate then |q.updates| else 0;
      SqlCompiler.CompileFilter(q.where, entity, n).Ok?
      && MeaningPreserved.Placed(SqlCompiler.CompileFor(q, entity).value.args, n,
                                 SqlCompiler.CompileFilter(q.where, entity, n).value.args)
  {
  }

  lemma HavingPlaced(q: Query, entity: EntityMeta)
    requires q.kind == QuerySelect && q.having.Some? && SqlCompiler.CompileFor(q, entity).Ok?
    ensures SqlCompiler.CompileFilter(q.where, entity, 0).Ok?
    ensures var n := |SqlCompiler.CompileFilter(q.where, entity, 0).value.args|;
      SqlCompiler.CompileWhere(q.having, entity, n).Ok?
      && MeaningPreserved.Placed(SqlCompiler.CompileFor(q, entity).value.args, n,
                                 SqlCompiler.CompileWhere(q.having, entity, n).value.args)
  {
  }

  /** The statement's HAVING, when the query has one, has the clause's truth on every row. */
  ghost predicate HavingAgrees(
    q: Query, entity: EntityMeta, db: Truth.Interp, row: Truth.Row, s: SqlStatements.Statement, args: seq<Truth.Arg>)
  {
    q.kind == QuerySelect && q.having.Some? ==>
      s.Select? && s.having.Some?
      && ClauseTruth(db, entity, q.having, row) == Some(SqlReader.Eval(db, s.having.value, row, args))
  }

  lemma HavingOfStatement(q: Query, entity: EntityMeta, db: Truth.Interp, row: Truth.Row)
    requires SqlCompiler.CompileFor(q, entity).Ok? && StatementMeaning.ReadableQuery(q) && Faithful(q.having)
    ensures HavingAgrees(
      q, entity, db, row, StatementMeaning.StatementOf(q, entity), SqlCompiler.CompileFor(q, entity).value.args)
  {
    if q.kind == QuerySelect && q.having.Some? {
      HavingPlaced(q, entity);
      HavingMeaning(q.having, entity, |SqlCompiler.CompileFilter(q.where, entity, 0).value.args|, db, row,
                    SqlCompiler.CompileFor(q, entity).value.args);
    }
  }

  /** The statement's WHERE is what the query compiles it to. */
  lemma WhereOfStatement(q: Query, entity: EntityMeta)
    ensures StatementMeaning.StatementOf(q, entity).where
         == StatementMeaning.FilterExpr(q.where, entity, if q.kind == QueryUpdate then |q.updates| else 0)
  {
  }

  /** End to end: a query accepted by the parser and the compiler is one statement at the
      database; its WHERE and its HAVING are the parsed clauses. */
  lemma AcceptedQueryMeaning(ts: Tokens, entity: EntityMeta, db: Truth.Interp, row: Truth.Row)
    requires Named(ts) && ParseQuery(ts).Ok? && SqlCompiler.CompileFor(ParseQuery(ts).value, entity).Ok?
    ensures var q := ParseQuery(ts).value;
      var p := SqlCompiler.CompileFor(q, entity).value;
      var s := SqlStatements.ReadStatement(p.sql);
      s == Some(StatementMeaning.StatementOf(q, entity))
      && (SqlStatements.Chosen(db, s.value.where, p.args, row)
          <==> MeaningPreserved.FilterTruth(db, entity, q.where, row) == Truth.True)
      && HavingAgrees(q, entity, db, row, s.value, p.args)
  {
    var q := ParseQuery(ts).value;
    AcceptedIsGood(ts);
    GoodQueryMeaning(q, entity, db, row);
  }

  /** The same of any query that is readable and faithful. */
  lemma GoodQueryMeaning(q: Query, entity: EntityMeta, db: Truth.Interp, row: Truth.Row)
    requires SqlCompiler.CompileFor(q, entity).Ok?
    requires StatementMeaning.ReadableQuery(q) && Faithful(q.where) && Faithful(q.having)
    ensures var p := SqlCompiler.CompileFor(q, entity).value;
      var s := SqlStatements.ReadStatement(p.sql);
      s == Some(StatementMeaning.StatementOf(q, entity))
      && (SqlStatements.Chosen(db, s.value.where, p.args, row)
          <==> MeaningPreserved.FilterTruth(db, entity, q.where, row) == Truth.True)
      && HavingAgrees(q, entity, db, row, s.value, p.args)
  {
    var n := if q.kind == QueryUpdate then |q.updates| else 0;
    StatementExactness.StatementReadsExactly(q, entity);
    ArgsPlaced(q, entity);
    FilterChooses(q.where, entity, n, db, row, SqlCompiler.CompileFor(q, entity).value.args);
    WhereOfStatement(q, entity);
    HavingOfStatement(q, entity, db, row);
  }
}
