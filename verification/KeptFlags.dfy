/** Two leaves lose their Not flag in the compiled text. A clause without the flags it loses has the
    same text, and its truth is the truth of that text. */
module KeptFlags {
  import opened Results
  import opened QueryAst
  import opened Truth
  import opened SqlReader
  import opened SqlCompiler
  import opened SqlStatements
  import opened QueryMeaning
  import opened MeaningPreserved
  import opened StatementMeaning
  import AcceptedQueries

  // ----- the clause that the text says -----

  function KeptCondition(c: Condition): Condition
    decreases c
  {
    if c.nested.Some? then c.(nested := Kept(c.nested))
    else if FaithfulLeaf(c) then c else c.(negated := false)
  }

  function KeptAll(cs: seq<Condition>): (kept: seq<Condition>)
    ensures |kept| == |cs|
    decreases cs
  {
    if cs == [] then [] else [KeptCondition(cs[0])] + KeptAll(cs[1..])
  }

  function Kept(where: Option<WhereClause>): (kept: Option<WhereClause>)
    ensures kept.Some? <==> where.Some?
    ensures where.Some? ==> kept.value.operator == where.value.operator
    decreases where
  {
    if where.None? then None else Some(WhereClause(KeptAll(where.value.conditions), where.value.operator))
  }

  // ----- it has the same text -----

  lemma SameLeaf(c: Condition, entity: EntityMeta, n: nat)
    requires c.nested.None?
    ensures CompileLeaf(KeptCondition(c), entity, n) == CompileLeaf(c, entity, n)
  {
  }

  lemma {:induction false} SameCondition(c: Condition, entity: EntityMeta, n: nat)
    ensures CompileCondition(KeptCondition(c), entity, n) == CompileCondition(c, entity, n)
    decreases c
  {
    if c.nested.Some? {
      SameText(c.nested, entity, n);
    } else {
      SameLeaf(c, entity, n);
    }
  }

  lemma {:induction false} SameConditions(cs: seq<Condition>, entity: EntityMeta, n: nat)
    ensures CompileConditions(KeptAll(cs), entity, n) == CompileConditions(cs, entity, n)
    decreases cs
  {
    if cs != [] {
      SameCondition(cs[0], entity, n);
      assert KeptAll(cs)[1..] == KeptAll(cs[1..]);
      if CompileCondition(cs[0], entity, n).Ok? {
        SameConditions(cs[1..], entity, n + |CompileCondition(cs[0], entity, n).value.args|);
      }
    }
  }

  /** The compiler makes no difference between a clause and the one without the flags it loses. */
  lemma {:induction false} SameText(where: Option<WhereClause>, entity: EntityMeta, n: nat)
    ensures CompileWhere(Kept(where), entity, n) == CompileWhere(where, entity, n)
    decreases where
  {
    if where.Some? {
      SameConditions(where.value.conditions, entity, n);
    }
  }

  // ----- it is faithful, and otherwise the clause itself -----

  lemma {:induction false} KeptConditionIs(c: Condition)
    ensures FaithfulCondition(KeptCondition(c)) && (FaithfulCondition(c) ==> KeptCondition(c) == c)
    ensures ReadableCondition(KeptCondition(c)) <==> ReadableCondition(c)
    ensures Absent(KeptCondition(c)) <==> Absent(c)
    decreases c
  {
    if c.nested.Some? {
      KeptIs(c.nested);
    }
  }

  lemma {:induction false} KeptAllIs(cs: seq<Condition>)
    ensures AllFaithful(KeptAll(cs)) && (AllFaithful(cs) ==> KeptAll(cs) == cs)
    ensures AllReadable(KeptAll(cs)) <==> AllReadable(cs)
    ensures AllAbsent(KeptAll(cs)) <==> AllAbsent(cs)
    decreases cs
  {
    if cs != [] {
      KeptConditionIs(cs[0]);
      KeptAllIs(cs[1..]);
      assert KeptAll(cs)[1..] == KeptAll(cs[1..]);
    }
  }

  lemma {:induction false} KeptIs(where: Option<WhereClause>)
    ensures Faithful(Kept(where)) && (Faithful(where) ==> Kept(where) == where)
    ensures Readable(Kept(where)) <==> Readable(where)
    ensures EmptyClause(Kept(where)) <==> EmptyClause(where)
    decreases where
  {
    if where.Some? {
      KeptAllIs(where.value.conditions);
    }
  }

  // ----- its truth is the text's -----

  function KeptQuery(q: Query): Query {
    q.(where := Kept(q.where), having := Kept(q.having))
  }

  lemma SameFilter(where: Option<WhereClause>, entity: EntityMeta, n: nat)
    ensures CompileFilter(Kept(where), entity, n) == CompileFilter(where, entity, n)
    ensures FilterExpr(Kept(where), entity, n) == FilterExpr(where, entity, n)
  {
    SameText(where, entity, n);
  }

  lemma SameHaving(having: Option<WhereClause>, entity: EntityMeta, n: nat)
    ensures CompileHaving(Kept(having), entity, n) == CompileHaving(having, entity, n)
    ensures ClauseExpr(Kept(having), entity, n) == ClauseExpr(having, entity, n)
  {
    SameText(having, entity, n);
  }

  lemma SameSelect(q: Query, entity: EntityMeta)
    ensures CompileSelect(KeptQuery(q), entity) == CompileSelect(q, entity)
  {
    SameFilter(q.where, entity, 0);
    if CompileFilter(q.where, entity, 0).Ok? {
      SameHaving(q.having, entity, |CompileFilter(q.where, entity, 0).value.args|);
    }
  }

  lemma SameFiltered(head: Sql, q: Query, entity: EntityMeta)
    ensures CompileFiltered(head, KeptQuery(q), entity) == CompileFiltered(head, q, entity)
  {
    SameFilter(q.where, entity, 0);
  }

  lemma SameUpdate(q: Query, entity: EntityMeta)
    ensures CompileUpdate(KeptQuery(q), entity) == CompileUpdate(q, entity)
  {
    SameFilter(q.where, entity, |q.updates|);
  }

  /** Every query compiles as the query without the flags it loses. */
  lemma SameQuery(q: Query, entity: EntityMeta)
    ensures CompileFor(KeptQuery(q), entity) == CompileFor(q, entity)
  {
    match q.kind
    case QuerySelect => SameSelect(q, entity);
    case QueryCount =>
      SameFiltered(
        [KwSelect, FuncName(Count), LParen, Star, RParen, KwFrom, Ident(entity.tableName)], q, entity);
    case QueryUpdate => SameUpdate(q, entity);
    case QueryDelete => SameFiltered(DeleteHead(entity), q, entity);
    case _ =>
      SameFiltered([KwSelect, FuncName(AggregateFunc(q.kind)), LParen, Ident(MapColumn(entity, q.aggField)), RParen,
                    KwFrom, Ident(entity.tableName)], q, entity);
  }

  lemma SameStatement(q: Query, entity: EntityMeta)
    ensures StatementOf(KeptQuery(q), entity) == StatementOf(q, entity)
  {
    SameFilter(q.where, entity, 0);
    SameFilter(q.where, entity, |q.updates|);
    var n := match CompileFilter(q.where, entity, 0) case Ok(w) => |w.args| case Err(_) => 0;
    SameHaving(q.having, entity, n);
  }

  /** The statement of any readable query chooses the rows on which its WHERE, without the Not flags
      it loses, and the soft-delete test are true, and its HAVING has the truth of the clause without
      the flags it loses. */
  lemma KeptMeaning(q: Query, entity: EntityMeta, db: Interp, row: Row)
    requires CompileFor(q, entity).Ok? && ReadableQuery(q)
    ensures var s, args := StatementOf(q, entity), CompileFor(q, entity).value.args;
      (Chosen(db, s.where, args, row) <==> FilterTruth(db, entity, Kept(q.where), row) == True)
      && AcceptedQueries.HavingAgrees(KeptQuery(q), entity, db, row, s, args)
  {
    SameQuery(q, entity);
    SameStatement(q, entity);
    KeptIs(q.where);
    KeptIs(q.having);
    AcceptedQueries.GoodQueryMeaning(KeptQuery(q), entity, db, row);
  }
}
