/** The condition under which a statement reads back is exact. */
module StatementExactness {
  import opened Results
  import opened QueryAst
  import opened SqlReader
  import opened SqlCompiler
  import opened SqlStatements
  import opened QueryMeaning
  import opened MeaningPreserved
  import opened Unreadable
  import opened StatementMeaning

  lemma KeywordBroken(keyword: Tok, s: Sql, rest: Sql)
    requires ReadCondition(s + rest).None?
    ensures ReadClause(keyword, [keyword] + s + rest).None?
  {
    assert ([keyword] + s + rest)[1..] == s + rest;
  }

  lemma ConjoinedBroken(s: Sql, t: Sql, rest: Sql)
    requires IsBroken(s) && Follows(rest)
    ensures ReadCondition(Conjoin([s, t]) + rest).None?
  {
    var s', t' := [LParen] + s + [RParen], [LParen] + t + [RParen];
    forall rest | Follows(rest)
      ensures ReadCondition(s + rest).None?
    {
      BrokenCondition(s, rest);
    }
    BrokenGroup(s);
    ConjoinIsJoin(s, t);
    ReadBrokenJoin([s', t'], [], 0, LogicalAnd, rest);
  }

  lemma FilterBroken(where: Option<WhereClause>, entity: EntityMeta, n: nat, rest: Sql)
    requires CompileFilter(where, entity, n).Ok? && !Readable(where) && Follows(rest)
    ensures ReadClause(KwWhere, CompileFilter(where, entity, n).value.sql + rest).None?
  {
    var s := CompileWhere(where, entity, n).value.sql;
    var soft := [Ident(entity.softDelete), KwIs, KwNull];
    var full := WithSoftDelete(s, entity.softDelete);
    WhereBroken(where, entity, n);
    BrokenNotEmpty(s);
    if entity.softDelete == "" {
      assert full == s;
      BrokenCondition(s, rest);
    } else {
      assert [s] + [soft] == [s, soft];
      ConjoinedBroken(s, soft, rest);
    }
    KeywordBroken(KwWhere, full, rest);
  }

  lemma NothingReads(rest: Sql)
    requires rest == [] || rest[0] in {KwOrder, KwLimit, KwOffset, KwWhere}
    ensures ReadCondition(rest).None? && ReadAssignments(rest).None?
  {
    assert ReadPrimary(rest).None?;
    assert ReadFactor(rest).None?;
    assert ReadTerm(rest).None?;
  }

  lemma HavingBroken(q: Query, entity: EntityMeta, n: nat, rest: Sql)
    requires CompileHaving(q.having, entity, n).Ok? && !ReadableHaving(q.having)
    requires rest == [] || rest[0] in {KwOrder, KwLimit, KwOffset}
    ensures ReadClause(KwHaving, CompileHaving(q.having, entity, n).value.sql + rest).None?
  {
    var s := CompileWhere(q.having, entity, n).value.sql;
    if Readable(q.having) {
      ClauseReads(q.having, entity, n);
      assert s + rest == rest;
      NothingReads(rest);
    } else {
      WhereBroken(q.having, entity, n);
      BrokenCondition(s, rest);
    }
    KeywordBroken(KwHaving, s, rest);
  }

  lemma SelectBroken(q: Query, entity: EntityMeta)
    requires q.kind == QuerySelect && !ReadableQuery(q) && CompileSelect(q, entity).Ok?
    ensures ReadStatement(CompileSelect(q, entity).value.sql).None?
  {
    var w := CompileFilter(q.where, entity, 0).value;
    var h := CompileHaving(q.having, entity, |w.args|).value;
    var tail := SelectTail(q, entity);
    var more := w.sql + (GroupPart(q, entity) + (h.sql + tail));
    SelectText(q, entity, w.sql, h.sql);
    ProjectionReads(q, entity, [KwFrom, Ident(entity.tableName)] + more);
    SelectFromReads(SelectColumns(q, entity), ProjectionOf(q, entity), entity.tableName, more);
    SelectTailReads(q, entity);
    HavingStarts(q, entity, |w.args|, tail);
    GroupStarts(q, entity, h.sql + tail);
    if !Readable(q.where) {
      FilterBroken(q.where, entity, 0, GroupPart(q, entity) + (h.sql + tail));
    } else {
      FilterReads(q.where, entity, 0, GroupPart(q, entity) + (h.sql + tail));
      GroupReads(q, entity, h.sql + tail);
      HavingBroken(q, entity, |w.args|, tail);
    }
  }

  lemma ReadBrokenUpdate(table: string, list: Sql, w: Sql)
    requires ReadAssignments(list + w).None?
          || (ReadAssignments(list + w).value.1 == w && ReadClause(KwWhere, w).None?)
    ensures ReadStatement([KwUpdate, Ident(table), KwSet] + list + w).None?
  {
    DropThree(KwUpdate, Ident(table), KwSet, list, w);
  }

  lemma UpdateBroken(q: Query, entity: EntityMeta)
    requires q.kind == QueryUpdate && !ReadableQuery(q) && CompileUpdate(q, entity).Ok?
    ensures ReadStatement(CompileUpdate(q, entity).value.sql).None?
  {
    var w := CompileFilter(q.where, entity, |q.updates|).value.sql;
    var sets := Assignments(q.updates, entity);
    FilterStarts(q.where, entity, |q.updates|);
    if q.updates == [] {
      assert Join(SetParts(q.updates, entity), [Comma]) + w == w;
      NothingReads(w);
    } else {
      SetListReads(q.updates, entity, w);
      FilterAloneBroken(q.where, entity, |q.updates|);
    }
    ReadBrokenUpdate(entity.tableName, Join(SetParts(q.updates, entity), [Comma]), w);
  }

  lemma FilterAloneBroken(where: Option<WhereClause>, entity: EntityMeta, n: nat)
    requires CompileFilter(where, entity, n).Ok? && !Readable(where)
    ensures ReadClause(KwWhere, CompileFilter(where, entity, n).value.sql).None?
  {
    var w := CompileFilter(where, entity, n).value.sql;
    FilterBroken(where, entity, n, []);
    assert w + [] == w;
  }

  lemma DeleteBroken(q: Query, entity: EntityMeta)
    requires q.kind == QueryDelete && !Readable(q.where) && CompileFiltered(DeleteHead(entity), q, entity).Ok?
    ensures ReadStatement(CompileFiltered(DeleteHead(entity), q, entity).value.sql).None?
  {
    var w := CompileFilter(q.where, entity, 0).value.sql;
    FilterAloneBroken(q.where, entity, 0);
    if entity.softDelete == "" {
      assert ([KwDelete, KwFrom, Ident(entity.tableName)] + w)[3..] == w;
    } else {
      FilterStarts(q.where, entity, 0);
      StampReads(entity.softDelete, w);
      DeleteHeadStamps(entity);
      ReadBrokenUpdate(entity.tableName, Stamp(entity.softDelete), w);
    }
  }

  lemma AggregateBroken(q: Query, entity: EntityMeta)
    requires q.kind !in {QuerySelect, QueryUpdate, QueryDelete} && !Readable(q.where) && CompileFor(q, entity).Ok?
    ensures ReadStatement(CompileFor(q, entity).value.sql).None?
  {
    var w := CompileFilter(q.where, entity, 0).value.sql;
    FilterAloneBroken(q.where, entity, 0);
    AggregateText(q, entity, w);
    AggregateProjects(q, entity, [KwFrom, Ident(entity.tableName)] + w);
    SelectFromReads(AggregateColumns(q, entity), ProjectionOf(q, entity), entity.tableName, w);
  }

  /** A query that compiles reads back as a statement exactly when it is readable, and then as
      the statement it stands for. */
  lemma StatementReadsExactly(q: Query, entity: EntityMeta)
    requires CompileFor(q, entity).Ok?
    ensures ReadStatement(CompileFor(q, entity).value.sql)
         == if ReadableQuery(q) then Some(StatementOf(q, entity)) else None
  {
    if ReadableQuery(q) {
      StatementReads(q, entity);
    } else {
      match q.kind
      case QuerySelect => SelectBroken(q, entity);
      case QueryUpdate => UpdateBroken(q, entity);
      case QueryDelete => DeleteBroken(q, entity);
      case _ => AggregateBroken(q, entity);
    }
  }
}
