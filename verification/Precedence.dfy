/** What a mixture of AND and OR would mean if AND bound tighter, and when the parser's flat clause
    means the same (internal/query/parser.go). */
module Precedence {
  import opened Results
  import opened QueryAst
  import opened QueryMeaning
  import opened QueryParser
  import opened ParserRoundTrip
  import opened Truth
  import Lexer

  /** The conditions cut at every OR: the runs that AND joins. */
  function Runs(cs: seq<Condition>, ops: seq<LogicalOp>): (runs: seq<seq<Condition>>)
    requires |cs| == |ops| + 1
    ensures runs != []
    decreases |ops|
  {
    if ops == [] then [cs] else
    var rest := Runs(cs[1..], ops[1..]);
    if ops[0] == LogicalAnd then [[cs[0]] + rest[0]] + rest[1..] else [[cs[0]]] + rest
  }

  /** A parenthesised AND of conditions. */
  function Group(run: seq<Condition>): Condition {
    Condition("", OpEquals, Null, false, Some(WhereClause(run, LogicalAnd)))
  }

  function Groups(runs: seq<seq<Condition>>): seq<Condition> {
    if runs == [] then [] else [Group(runs[0])] + Groups(runs[1..])
  }

  /** The clause with the parentheses that precedence implies: an OR of AND runs. */
  function ByPrecedence(cs: seq<Condition>, ops: seq<LogicalOp>): WhereClause
    requires |cs| == |ops| + 1
  {
    WhereClause(Groups(Runs(cs, ops)), LogicalOr)
  }

  /** The clause the parser builds, by ParserRoundTrip.MixedParses. */
  function Flat(cs: seq<Condition>, ops: seq<LogicalOp>): WhereClause {
    WhereClause(cs, if LogicalOr in ops then LogicalOr else LogicalAnd)
  }

  ghost predicate SameTruth(cs: seq<Condition>, ops: seq<LogicalOp>, db: Interp, entity: EntityMeta, row: Row)
    requires |cs| == |ops| + 1
  {
    ClauseTruth(db, entity, Some(ByPrecedence(cs, ops)), row) == ClauseTruth(db, entity, Some(Flat(cs, ops)), row)
  }

  predicate OneConnective(ops: seq<LogicalOp>) {
    !(LogicalAnd in ops && LogicalOr in ops)
  }

  // ----- one connective: the readings agree -----

  lemma {:induction false} OnlyAnds(cs: seq<Condition>, ops: seq<LogicalOp>)
    requires |cs| == |ops| + 1 && LogicalOr !in ops
    ensures Runs(cs, ops) == [cs]
    decreases |ops|
  {
    if ops != [] {
      assert ops[0] in ops;
      assert ops[0] == LogicalAnd;
      assert forall op :: op in ops[1..] ==> op in ops;
      OnlyAnds(cs[1..], ops[1..]);
      assert [cs[0]] + cs[1..] == cs;
    }
  }

  lemma GroupTruth(db: Interp, entity: EntityMeta, run: seq<Condition>, row: Row)
    ensures var ts := Truths(db, entity, run, row);
      ConditionTruth(db, entity, Group(run), row) == if ts == [] then [] else [AllOf(ts)]
  {
    var w := Group(run).nested;
    assert w.value.conditions == run && w.value.operator == LogicalAnd;
  }

  lemma AllOfOne(t: Truth)
    ensures AllOf([t]) == t && AnyOf([t]) == t
  {
  }

  lemma SingletonTruth(db: Interp, entity: EntityMeta, c: Condition, row: Row)
    ensures ConditionTruth(db, entity, Group([c]), row) == ConditionTruth(db, entity, c, row)
  {
    GroupTruth(db, entity, [c], row);
    var t := ConditionTruth(db, entity, c, row);
    assert [c][1..] == [] && Truths(db, entity, [c], row) == t + [] == t;
    if t != [] {
      assert t == [t[0]];
      AllOfOne(t[0]);
    }
  }

  lemma {:induction false} OnlyOrs(db: Interp, entity: EntityMeta, cs: seq<Condition>, ops: seq<LogicalOp>, row: Row)
    requires |cs| == |ops| + 1 && LogicalAnd !in ops
    ensures Truths(db, entity, Groups(Runs(cs, ops)), row) == Truths(db, entity, cs, row)
    decreases |ops|
  {
    SingletonTruth(db, entity, cs[0], row);
    if ops == [] {
      assert cs == [cs[0]] && Groups([cs]) == [Group(cs)] && [Group(cs)][1..] == [];
    } else {
      assert ops[0] in ops;
      assert ops[0] == LogicalOr;
      assert forall op :: op in ops[1..] ==> op in ops;
      OnlyOrs(db, entity, cs[1..], ops[1..], row);
      FirstGroup([cs[0]], Runs(cs[1..], ops[1..]));
    }
  }

  lemma FirstGroup(run: seq<Condition>, runs: seq<seq<Condition>>)
    ensures Groups([run] + runs) == [Group(run)] + Groups(runs)
    ensures ([Group(run)] + Groups(runs))[1..] == Groups(runs)
  {
    assert ([run] + runs)[1..] == runs;
  }

  lemma OneConnectiveAgrees(cs: seq<Condition>, ops: seq<LogicalOp>, db: Interp, entity: EntityMeta, row: Row)
    requires |cs| == |ops| + 1 && OneConnective(ops)
    ensures SameTruth(cs, ops, db, entity, row)
  {
    if LogicalOr in ops {
      OnlyOrs(db, entity, cs, ops, row);
    } else {
      OnlyAnds(cs, ops);
      GroupTruth(db, entity, cs, row);
      var ts := Truths(db, entity, cs, row);
      assert Groups([cs]) == [Group(cs)] && [Group(cs)][1..] == [];
      assert Truths(db, entity, [Group(cs)], row) == ConditionTruth(db, entity, Group(cs), row) + [];
      AllOfOne(AllOf(ts));
    }
  }

  // ----- both connectives: some conditions tell the readings apart -----

  /** A test that is true, or false, on a row without the column, in every database. */
  function Test(holds: bool): Condition {
    Condition("a", if holds then OpIsNull else OpIsNotNull, Null, false, None)
  }

  function Tests(n: nat, k: nat): (cs: seq<Condition>)
    ensures |cs| == n && forall i :: 0 <= i < n ==> cs[i] == Test(i == k)
  {
    seq(n, i => Test(i == k))
  }

  lemma TestTruth(db: Interp, entity: EntityMeta, holds: bool)
    ensures ConditionTruth(db, entity, Test(holds), map[]) == [if holds then True else False]
  {
  }

  lemma {:induction false} TestTruths(db: Interp, entity: EntityMeta, cs: seq<Condition>, i: nat)
    requires i < |cs| && cs[i] in {Test(true), Test(false)}
    ensures (if cs[i] == Test(true) then True else False) in Truths(db, entity, cs, map[])
    decreases |cs|
  {
    if i == 0 {
      TestTruth(db, entity, cs[0] == Test(true));
    } else {
      TestTruths(db, entity, cs[1..], i - 1);
    }
  }

  /** Each true test is followed by an AND and a false one, so every run holds a false test. */
  lemma {:induction false} RunsHoldFalse(cs: seq<Condition>, ops: seq<LogicalOp>)
    requires |cs| == |ops| + 1
    requires forall i :: 0 <= i < |cs| && cs[i] != Test(false) ==> i < |ops| && ops[i] == LogicalAnd
    ensures forall run :: run in Runs(cs, ops) ==> Test(false) in run
    decreases |ops|
  {
    if ops == [] {
      assert cs == [Test(false)];
    } else {
      var rest := Runs(cs[1..], ops[1..]);
      RunsHoldFalse(cs[1..], ops[1..]);
      assert rest[0] in rest;
      assert forall run :: run in rest[1..] ==> run in rest;
      assert cs[0] == Test(false) || ops[0] == LogicalAnd;
    }
  }

  lemma {:induction false} FalseGroups(db: Interp, entity: EntityMeta, runs: seq<seq<Condition>>)
    requires forall run :: run in runs ==> Test(false) in run
    ensures forall t :: t in Truths(db, entity, Groups(runs), map[]) ==> t == False
    ensures runs != [] ==> Truths(db, entity, Groups(runs), map[]) != []
    decreases |runs|
  {
    if runs != [] {
      var run, more := runs[0], Groups(runs[1..]);
      assert run in runs && forall r :: r in runs[1..] ==> r in runs;
      var i :| 0 <= i < |run| && run[i] == Test(false);
      TestTruths(db, entity, run, i);
      GroupTruth(db, entity, run, map[]);
      FalseGroups(db, entity, runs[1..]);
      FirstGroup(run, runs[1..]);
      assert runs == [run] + runs[1..];
      assert Truths(db, entity, Groups(runs), map[]) == [False] + Truths(db, entity, more, map[]);
    }
  }

  lemma TestWritable(holds: bool)
    ensures WritableCondition(Test(holds))
  {
    LookupNames(0, Lexer.ToLower("a"));
  }

  lemma {:induction false} TestsWritable(cs: seq<Condition>)
    requires forall c :: c in cs ==> c in {Test(true), Test(false)}
    ensures AllConditionsWritable(cs)
    decreases |cs|
  {
    if cs != [] {
      assert cs[0] in cs;
      TestWritable(cs[0] == Test(true));
      forall c | c in cs[1..]
        ensures c in {Test(true), Test(false)}
      {
        assert c in cs;
      }
      TestsWritable(cs[1..]);
    }
  }

  /** With both connectives there are conditions on which precedence says false and the parser's
      clause says true, in every database, on the row without columns. */
  lemma MixtureDiffers(ops: seq<LogicalOp>, db: Interp, entity: EntityMeta) returns (cs: seq<Condition>)
    requires !OneConnective(ops)
    ensures |cs| == |ops| + 1 && AllConditionsWritable(cs)
    ensures ClauseTruth(db, entity, Some(ByPrecedence(cs, ops)), map[]) == Some(False)
    ensures ClauseTruth(db, entity, Some(Flat(cs, ops)), map[]) == Some(True)
  {
    var k :| 0 <= k < |ops| && ops[k] == LogicalAnd;
    cs := Tests(|ops| + 1, k);
    TestsWritable(cs);
    RunsHoldFalse(cs, ops);
    FalseGroups(db, entity, Runs(cs, ops));
    TestTruths(db, entity, cs, k);
    AnyIsTrue(db, entity, Flat(cs, ops));
    AllAreFalse(db, entity, ByPrecedence(cs, ops));
  }

  lemma AnyIsTrue(db: Interp, entity: EntityMeta, w: WhereClause)
    requires w.operator == LogicalOr && True in Truths(db, entity, w.conditions, map[])
    ensures ClauseTruth(db, entity, Some(w), map[]) == Some(True)
  {
  }

  lemma AllAreFalse(db: Interp, entity: EntityMeta, w: WhereClause)
    requires w.operator == LogicalOr && Truths(db, entity, w.conditions, map[]) != []
    requires forall t :: t in Truths(db, entity, w.conditions, map[]) ==> t == False
    ensures ClauseTruth(db, entity, Some(w), map[]) == Some(False)
  {
  }

  /** Precedence makes no difference, whatever the conditions, the database and the row, exactly when
      one connective joins them all. */
  lemma PrecedenceMatters(ops: seq<LogicalOp>, entity: EntityMeta)
    ensures OneConnective(ops) <==>
      forall cs: seq<Condition>, db: Interp, row: Row :: |cs| == |ops| + 1 && AllConditionsWritable(cs)
        ==> SameTruth(cs, ops, db, entity, row)
  {
    if OneConnective(ops) {
      forall cs: seq<Condition>, db: Interp, row: Row | |cs| == |ops| + 1 && AllConditionsWritable(cs)
        ensures SameTruth(cs, ops, db, entity, row)
      {
        OneConnectiveAgrees(cs, ops, db, entity, row);
      }
    } else {
      var db := Interp((v, a) => true, (v, a) => true, (v, a) => true,
                       (v, a, b) => true, (v, a, b) => true, (v, a, k) => true);
      var cs := MixtureDiffers(ops, db, entity);
      assert !SameTruth(cs, ops, db, entity, map[]);
    }
  }

  /** From tokens: what is written without parentheses is parsed as the flat clause, which has the
      meaning that precedence gives it when one connective joins it all. */
  lemma MixedMeaning(cs: seq<Condition>, ops: seq<LogicalOp>, rest: Tokens, db: Interp, entity: EntityMeta, row: Row)
    requires |cs| == |ops| + 1 && AllConditionsWritable(cs) && EndsClause(rest) && MaxNesting(cs) <= MAX_DEPTH
    ensures ParseWhere(RenderMixed(cs, ops) + rest, 0) == Ok((Flat(cs, ops), rest))
    ensures OneConnective(ops) ==> SameTruth(cs, ops, db, entity, row)
  {
    MixedParses(cs, ops, rest, 0);
    if OneConnective(ops) {
      OneConnectiveAgrees(cs, ops, db, entity, row);
    }
  }
}
