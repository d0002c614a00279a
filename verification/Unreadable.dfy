/** The other half of reading back: a clause with an empty group under a NOT compiles to text
    that no SQL reader accepts, wherever the group is nested. */
module Unreadable {
  import opened Results
  import opened QueryAst
  import opened Truth
  import opened SqlReader
  import opened SqlCompiler
  import opened QueryMeaning
  import opened MeaningPreserved

  lemma {:induction false} ReadBrokenAnds(acc: SqlExpr, parts: seq<Sql>, es: seq<SqlExpr>, k: nat, rest: Sql)
    requires k < |parts| && AreFactors(parts[..k], es) && IsBroken(parts[k]) && Follows(rest)
    ensures ReadAnds(acc, Tail(parts, KwAnd) + rest).None?
    decreases k
  {
    var ts := Tail(parts, KwAnd) + rest;
    var more := Tail(parts[1..], KwAnd) + rest;
    TailSplits(parts, KwAnd, rest);
    if k > 0 {
      FactorsAfterFirst(parts, es, k);
      assert ReadFactor(ts[1..]) == Some((es[0], more));
      ReadBrokenAnds(EAnd(acc, es[0]), parts[1..], es[1..], k - 1, rest);
    }
  }

  lemma {:induction false} ReadBrokenOrs(acc: SqlExpr, parts: seq<Sql>, es: seq<SqlExpr>, k: nat, rest: Sql)
    requires k < |parts| && AreFactors(parts[..k], es) && IsBroken(parts[k]) && Follows(rest)
    ensures ReadOrs(acc, Tail(parts, KwOr) + rest).None?
    decreases k
  {
    var ts := Tail(parts, KwOr) + rest;
    var more := Tail(parts[1..], KwOr) + rest;
    TailSplits(parts, KwOr, rest);
    if k > 0 {
      FactorsAfterFirst(parts, es, k);
      TailSplits(parts[1..], KwOr, rest);
      FactorAt(parts[0], es[0], more);
      TermStarts(ts[1..], es[0], more);
      AndsEnd(es[0], more);
      OrsStep(acc, ts, es[0], more);
      ReadBrokenOrs(EOr(acc, es[0]), parts[1..], es[1..], k - 1, rest);
    } else {
      BrokenTail(acc, ts, parts[0], more);
    }
  }

  lemma BrokenTail(acc: SqlExpr, ts: Sql, s: Sql, more: Sql)
    requires IsBroken(s) && Follows(more) && ts != [] && ts[0] == KwOr && ts[1..] == s + more
    ensures ReadOrs(acc, ts).None?
  {
    assert ReadFactor(s + more).None?;
    assert ReadTerm(s + more).None?;
  }

  lemma BrokenCondition(s: Sql, rest: Sql)
    requires IsBroken(s) && Follows(rest)
    ensures ReadCondition(s + rest).None?
  {
    assert ReadFactor(s + rest).None?;
    assert ReadTerm(s + rest).None?;
  }

  lemma ReadBrokenJoin(parts: seq<Sql>, es: seq<SqlExpr>, k: nat, op: LogicalOp, rest: Sql)
    requires k < |parts| && AreFactors(parts[..k], es) && IsBroken(parts[k]) && Follows(rest)
    ensures ReadCondition(Join(parts, [Connective(op)]) + rest).None?
  {
    var ts := Join(parts, [Connective(op)]) + rest;
    var more := Tail(parts[1..], Connective(op)) + rest;
    JoinSplits(parts, op, rest);
    if k == 0 {
      BrokenCondition(parts[0], more);
    } else {
      FactorsAfterFirst(parts, es, k);
      assert Follows(more);
      assert ReadFactor(parts[0] + more) == Some((es[0], more));
      ReadAfterFirst(ts, es[0], more, parts[1..], es[1..], k - 1, op, rest);
    }
  }

  lemma FactorsAfterFirst(parts: seq<Sql>, es: seq<SqlExpr>, k: nat)
    requires 0 < k < |parts| && AreFactors(parts[..k], es)
    ensures IsFactor(parts[0], es[0]) && AreFactors(parts[1..][..k - 1], es[1..])
  {
    assert parts[..k][0] == parts[0];
    assert parts[1..][..k - 1] == parts[..k][1..];
  }

  lemma ReadAfterFirst(
    ts: Sql, e: SqlExpr, more: Sql, parts: seq<Sql>, es: seq<SqlExpr>, k: nat, op: LogicalOp, rest: Sql)
    requires k < |parts| && AreFactors(parts[..k], es) && IsBroken(parts[k]) && Follows(rest)
    requires more == Tail(parts, Connective(op)) + rest && ReadFactor(ts) == Some((e, more))
    ensures ReadCondition(ts).None?
  {
    if op == LogicalOr {
      assert ReadTerm(ts) == Some((e, more));
      ReadBrokenOrs(e, parts, es, k, rest);
    } else {
      ReadBrokenAnds(e, parts, es, k, rest);
    }
  }

  lemma ReadBrokenGroup(inner: Sql)
    requires ReadCondition(inner).None?
    ensures ReadFactor([LParen] + inner).None? && ReadFactor([KwNot] + ([LParen] + inner)).None?
  {
    var ts := [LParen] + inner;
    assert ts[1..] == inner;
    assert ReadPrimary(ts).None?;
    ReadFactorOfPrimary(ts);
  }

  lemma BrokenGroup(s: Sql)
    requires forall rest :: Follows(rest) ==> ReadCondition(s + rest).None?
    ensures IsBroken([LParen] + s + [RParen]) && IsBroken([KwNot, LParen] + s + [RParen])
  {
    forall rest | Follows(rest)
      ensures ReadFactor([LParen] + s + [RParen] + rest).None?
      ensures ReadFactor([KwNot, LParen] + s + [RParen] + rest).None?
    {
      assert ReadCondition(s + ([RParen] + rest)).None?;
      ReadBrokenGroup(s + ([RParen] + rest));
      InParentheses(s, rest);
      UnderNot(s, rest);
    }
  }

  lemma UnderNot(s: Sql, rest: Sql)
    ensures [KwNot, LParen] + s + [RParen] + rest == [KwNot] + ([LParen] + (s + ([RParen] + rest)))
  {
  }

  lemma ReadNothing(rest: Sql)
    ensures ReadCondition([RParen] + rest).None?
  {
    var ts := [RParen] + rest;
    assert ReadPrimary(ts).None?;
    assert ReadFactor(ts).None?;
    assert ReadTerm(ts).None?;
  }

  lemma EmptyGroup()
    ensures IsBroken([KwNot, LParen] + [] + [RParen])
  {
    forall rest
      ensures ReadFactor([KwNot, LParen] + [] + [RParen] + rest).None?
    {
      ReadNothing(rest);
      ReadBrokenGroup([RParen] + rest);
      assert [KwNot, LParen] + [] + [RParen] + rest == [KwNot] + ([LParen] + ([RParen] + rest));
    }
  }

  lemma BrokenNotEmpty(s: Sql)
    requires IsBroken(s)
    ensures s != []
  {
    var t := [KwTrue];
    assert Follows(t) && t[1..] == [];
    assert ReadFactor(t) == Some((ELiteral(true), []));
    assert ReadFactor(s + t).None?;
    EmptyPrefix(s, t);
  }

  lemma EmptyPrefix(s: Sql, t: Sql)
    ensures s == [] ==> s + t == t
  {
  }

  // ----- reading without a row in hand -----

  ghost function Padded(n: nat, own: seq<Arg>): (args: seq<Arg>)
    ensures Placed(args, n, own)
  {
    seq(n, i => Val(Null)) + own
  }

  lemma ConditionReads(c: Condition, entity: EntityMeta, n: nat) returns (e: SqlExpr)
    requires CompileCondition(c, entity, n).Ok? && ReadableCondition(c)
    ensures CompileCondition(c, entity, n).value.sql == [] <==> Absent(c)
    ensures !Absent(c) ==> IsFactor(CompileCondition(c, entity, n).value.sql, e)
  {
    e := ConditionFactor(c, entity, n, Agreeing(), map[], Padded(n, CompileCondition(c, entity, n).value.args));
  }

  lemma WhereReads(where: Option<WhereClause>, entity: EntityMeta, n: nat) returns (e: SqlExpr)
    requires CompileWhere(where, entity, n).Ok? && Readable(where)
    ensures CompileWhere(where, entity, n).value.sql == [] <==> EmptyClause(where)
    ensures !EmptyClause(where) ==> IsFactor(CompileWhere(where, entity, n).value.sql, e)
  {
    e := WhereFactor(where, entity, n, Agreeing(), map[], Padded(n, CompileWhere(where, entity, n).value.args));
  }

  // ----- the broken part of a clause -----

  lemma {:induction false} ConditionBroken(c: Condition, entity: EntityMeta, n: nat)
    requires CompileCondition(c, entity, n).Ok? && !ReadableCondition(c)
    ensures IsBroken(CompileCondition(c, entity, n).value.sql)
    decreases c
  {
    var s := CompileWhere(c.nested, entity, n).value.sql;
    if !Readable(c.nested) {
      WhereBroken(c.nested, entity, n);
      if c.negated {
        forall rest | Follows(rest)
          ensures ReadCondition(s + rest).None?
        {
          BrokenCondition(s, rest);
        }
        BrokenGroup(s);
      }
    } else {
      var e := WhereReads(c.nested, entity, n);
      EmptyGroup();
    }
  }

  lemma {:induction false} ConditionsBroken(cs: seq<Condition>, entity: EntityMeta, n: nat)
    returns (k: nat, es: seq<SqlExpr>)
    requires CompileConditions(cs, entity, n).Ok? && !AllReadable(cs)
    ensures var parts := CompileConditions(cs, entity, n).value.0;
      k < |parts| && AreFactors(parts[..k], es) && IsBroken(parts[k])
    decreases cs
  {
    var p := CompileCondition(cs[0], entity, n).value;
    var parts := CompileConditions(cs, entity, n).value.0;
    if !ReadableCondition(cs[0]) {
      ConditionBroken(cs[0], entity, n);
      BrokenNotEmpty(p.sql);
      k, es := 0, [];
    } else {
      var e := ConditionReads(cs[0], entity, n);
      k, es := ConditionsBroken(cs[1..], entity, n + |p.args|);
      if !Absent(cs[0]) {
        var more := CompileConditions(cs[1..], entity, n + |p.args|).value.0;
        MoreFactors(p.sql, e, more[..k], es);
        assert parts[..k + 1] == [p.sql] + more[..k];
        k, es := k + 1, [e] + es;
      }
    }
  }

  lemma {:induction false} WhereBroken(where: Option<WhereClause>, entity: EntityMeta, n: nat)
    requires CompileWhere(where, entity, n).Ok? && !Readable(where)
    ensures IsBroken(CompileWhere(where, entity, n).value.sql)
    decreases where
  {
    var cs, op := where.value.conditions, where.value.operator;
    var k, es := ConditionsBroken(cs, entity, n);
    var parts := CompileConditions(cs, entity, n).value.0;
    if |parts| > 1 {
      forall rest | Follows(rest)
        ensures ReadCondition(Join(parts, [Connective(op)]) + rest).None?
      {
        ReadBrokenJoin(parts, es, k, op, rest);
      }
      BrokenGroup(Join(parts, [Connective(op)]));
    }
  }

  /** A clause with something in it compiles to a readable search condition exactly when none
      of its negated groups is empty. */
  lemma ReadsBackExactly(where: Option<WhereClause>, entity: EntityMeta, n: nat, rest: Sql)
    requires CompileWhere(where, entity, n).Ok? && !EmptyClause(where) && EndsCondition(rest)
    ensures ReadCondition(CompileWhere(where, entity, n).value.sql + rest).Some? <==> Readable(where)
  {
    if Readable(where) {
      var e := WhereReads(where, entity, n);
      FactorIsCondition(CompileWhere(where, entity, n).value.sql, e, rest);
    } else {
      WhereBroken(where, entity, n);
      BrokenCondition(CompileWhere(where, entity, n).value.sql, rest);
    }
  }
}
