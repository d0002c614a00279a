/** The emitted condition, read back with SQL precedence and its parameters substituted, has on
    every row the truth of the clause tree; and it can be read back exactly when no negated
    group is empty. */
module MeaningPreserved {
  import opened Results
  import opened QueryAst
  import opened Truth
  import opened SqlReader
  import opened SqlCompiler
  import opened QueryMeaning

  // ----- joining factors -----

  /** A cast would continue the condition before it; no other token does. */
  predicate Follows(rest: Sql) {
    rest == [] || rest[0] != AsJsonb
  }

  predicate EndsTerm(rest: Sql) {
    rest == [] || (rest[0] != AsJsonb && rest[0] != KwAnd)
  }

  predicate EndsCondition(rest: Sql) {
    rest == [] || (rest[0] != AsJsonb && rest[0] != KwAnd && rest[0] != KwOr)
  }

  /** `s` reads as the boolean factor `e`, whatever follows. */
  ghost predicate IsFactor(s: Sql, e: SqlExpr) {
    forall rest :: Follows(rest) ==> ReadFactor(s + rest) == Some((e, rest))
  }

  /** No boolean factor starts with `s`. */
  ghost predicate IsBroken(s: Sql) {
    forall rest :: Follows(rest) ==> ReadFactor(s + rest).None?
  }

  ghost predicate AreFactors(parts: seq<Sql>, es: seq<SqlExpr>) {
    |parts| == |es| && forall i :: 0 <= i < |parts| ==> IsFactor(parts[i], es[i])
  }

  /** Every part preceded by the connective. */
  function Tail(parts: seq<Sql>, op: Tok): Sql {
    if parts == [] then [] else [op] + parts[0] + Tail(parts[1..], op)
  }

  lemma JoinIsHeadAndTail(parts: seq<Sql>, op: Tok)
    requires parts != []
    ensures Join(parts, [op]) == parts[0] + Tail(parts[1..], op)
  {
    if |parts| > 1 {
      JoinIsHeadAndTail(parts[1..], op);
    }
  }

  lemma Associative(a: Sql, b: Sql, c: Sql)
    ensures a + b + c == a + (b + c)
  {
  }

  lemma TailSplits(parts: seq<Sql>, op: Tok, rest: Sql)
    requires parts != []
    ensures var ts := Tail(parts, op) + rest;
      ts != [] && ts[0] == op && ts[1..] == parts[0] + (Tail(parts[1..], op) + rest)
  {
  }

  // How the reader goes on after a part it has read.

  lemma TermStarts(ts: Sql, e: SqlExpr, more: Sql)
    requires ReadFactor(ts) == Some((e, more))
    ensures ReadTerm(ts) == ReadAnds(e, more)
  {
  }

  lemma ConditionStarts(ts: Sql, e: SqlExpr, more: Sql)
    requires ReadTerm(ts) == Some((e, more))
    ensures ReadCondition(ts) == ReadOrs(e, more)
  {
  }

  lemma AndsEnd(acc: SqlExpr, rest: Sql)
    requires rest == [] || rest[0] != KwAnd
    ensures ReadAnds(acc, rest) == Some((acc, rest))
  {
  }

  lemma OrsEnd(acc: SqlExpr, rest: Sql)
    requires rest == [] || rest[0] != KwOr
    ensures ReadOrs(acc, rest) == Some((acc, rest))
  {
  }

  lemma OrsStep(acc: SqlExpr, ts: Sql, e: SqlExpr, more: Sql)
    requires ts != [] && ts[0] == KwOr && ReadTerm(ts[1..]) == Some((e, more))
    ensures ReadOrs(acc, ts) == ReadOrs(EOr(acc, e), more)
  {
  }

  lemma FactorAt(s: Sql, e: SqlExpr, rest: Sql)
    requires IsFactor(s, e) && Follows(rest)
    ensures ReadFactor(s + rest) == Some((e, rest))
  {
  }

  function FoldAnd(acc: SqlExpr, es: seq<SqlExpr>): SqlExpr
    decreases |es|
  {
    if es == [] then acc else FoldAnd(EAnd(acc, es[0]), es[1..])
  }

  function FoldOr(acc: SqlExpr, es: seq<SqlExpr>): SqlExpr
    decreases |es|
  {
    if es == [] then acc else FoldOr(EOr(acc, es[0]), es[1..])
  }

  lemma {:induction false} ReadAndTail(acc: SqlExpr, parts: seq<Sql>, es: seq<SqlExpr>, rest: Sql)
    requires AreFactors(parts, es) && EndsTerm(rest)
    ensures ReadAnds(acc, Tail(parts, KwAnd) + rest) == Some((FoldAnd(acc, es), rest))
    decreases |parts|
  {
    var ts := Tail(parts, KwAnd) + rest;
    if parts == [] {
      assert ts == rest;
    } else {
      var more := Tail(parts[1..], KwAnd) + rest;
      TailSplits(parts, KwAnd, rest);
      assert Follows(more);
      assert ReadFactor(ts[1..]) == Some((es[0], more));
      ReadAndTail(EAnd(acc, es[0]), parts[1..], es[1..], rest);
    }
  }

  lemma {:induction false} ReadOrTail(acc: SqlExpr, parts: seq<Sql>, es: seq<SqlExpr>, rest: Sql)
    requires AreFactors(parts, es) && EndsCondition(rest)
    ensures ReadOrs(acc, Tail(parts, KwOr) + rest) == Some((FoldOr(acc, es), rest))
    decreases |parts|
  {
    var ts := Tail(parts, KwOr) + rest;
    if parts == [] {
      assert ts == rest;
      OrsEnd(acc, rest);
    } else {
      var more := Tail(parts[1..], KwOr) + rest;
      TailSplits(parts, KwOr, rest);
      TailFollows(parts[1..], KwOr, rest);
      FactorAt(parts[0], es[0], more);
      TermStarts(ts[1..], es[0], more);
      AndsEnd(es[0], more);
      OrsStep(acc, ts, es[0], more);
      ReadOrTail(EOr(acc, es[0]), parts[1..], es[1..], rest);
    }
  }

  function Fold(es: seq<SqlExpr>, op: LogicalOp): SqlExpr
    requires es != []
  {
    if op == LogicalOr then FoldOr(es[0], es[1..]) else FoldAnd(es[0], es[1..])
  }

  /** The rest of a joined text starts with the connective, or is what follows it. */
  lemma TailFollows(parts: seq<Sql>, op: Tok, rest: Sql)
    ensures Tail(parts, op) + rest == rest || (Tail(parts, op) + rest != [] && (Tail(parts, op) + rest)[0] == op)
  {
    if parts == [] {
      assert Tail(parts, op) + rest == rest;
    } else {
      TailSplits(parts, op, rest);
    }
  }

  lemma JoinSplits(parts: seq<Sql>, op: LogicalOp, rest: Sql)
    requires parts != []
    ensures Join(parts, [Connective(op)]) + rest == parts[0] + (Tail(parts[1..], Connective(op)) + rest)
  {
    JoinIsHeadAndTail(parts, Connective(op));
    Associative(parts[0], Tail(parts[1..], Connective(op)), rest);
  }

  lemma FirstFactor(parts: seq<Sql>, es: seq<SqlExpr>)
    requires parts != [] && AreFactors(parts, es)
    ensures IsFactor(parts[0], es[0]) && AreFactors(parts[1..], es[1..])
  {
  }

  lemma ReadOrParts(s: Sql, e: SqlExpr, parts: seq<Sql>, es: seq<SqlExpr>, rest: Sql)
    requires IsFactor(s, e) && AreFactors(parts, es) && EndsCondition(rest)
    ensures ReadCondition(s + (Tail(parts, KwOr) + rest)) == Some((FoldOr(e, es), rest))
  {
    var more := Tail(parts, KwOr) + rest;
    TailFollows(parts, KwOr, rest);
    FactorAt(s, e, more);
    ReadOrTail(e, parts, es, rest);
    OrCondition(s + more, e, more, FoldOr(e, es), rest);
  }

  lemma ReadAndParts(s: Sql, e: SqlExpr, parts: seq<Sql>, es: seq<SqlExpr>, rest: Sql)
    requires IsFactor(s, e) && AreFactors(parts, es) && EndsCondition(rest)
    ensures ReadCondition(s + (Tail(parts, KwAnd) + rest)) == Some((FoldAnd(e, es), rest))
  {
    var more := Tail(parts, KwAnd) + rest;
    TailFollows(parts, KwAnd, rest);
    FactorAt(s, e, more);
    ReadAndTail(e, parts, es, rest);
    AndCondition(s + more, e, more, FoldAnd(e, es), rest);
  }

  lemma ReadJoined(parts: seq<Sql>, es: seq<SqlExpr>, op: LogicalOp, rest: Sql)
    requires parts != [] && AreFactors(parts, es) && EndsCondition(rest)
    ensures ReadCondition(Join(parts, [Connective(op)]) + rest) == Some((Fold(es, op), rest))
  {
    FirstFactor(parts, es);
    JoinSplits(parts, op, rest);
    if op == LogicalOr {
      ReadOrParts(parts[0], es[0], parts[1..], es[1..], rest);
    } else {
      ReadAndParts(parts[0], es[0], parts[1..], es[1..], rest);
    }
  }

  lemma OrCondition(ts: Sql, e: SqlExpr, more: Sql, all: SqlExpr, rest: Sql)
    requires ReadFactor(ts) == Some((e, more)) && (more == [] || more[0] != KwAnd)
    requires ReadOrs(e, more) == Some((all, rest))
    ensures ReadCondition(ts) == Some((all, rest))
  {
    TermStarts(ts, e, more);
    AndsEnd(e, more);
    ConditionStarts(ts, e, more);
  }

  lemma AndCondition(ts: Sql, e: SqlExpr, more: Sql, all: SqlExpr, rest: Sql)
    requires ReadFactor(ts) == Some((e, more)) && (rest == [] || rest[0] != KwOr)
    requires ReadAnds(e, more) == Some((all, rest))
    ensures ReadCondition(ts) == Some((all, rest))
  {
    TermStarts(ts, e, more);
    ConditionStarts(ts, all, rest);
    OrsEnd(all, rest);
  }

  lemma ReadParenthesised(inner: Sql, e: SqlExpr, rest: Sql)
    requires ReadCondition(inner) == Some((e, [RParen] + rest))
    ensures ReadPrimary([LParen] + inner) == Some((e, rest))
  {
    assert ([LParen] + inner)[1..] == inner;
    assert ([RParen] + rest)[1..] == rest;
  }

  lemma ReadFactorOfPrimary(ts: Sql)
    requires ts != [] && ts[0] != KwNot
    ensures ReadFactor(ts) == ReadPrimary(ts)
    ensures ReadFactor([KwNot] + ts)
         == if ReadPrimary(ts).None? then None else Some((ENot(ReadPrimary(ts).value.0), ReadPrimary(ts).value.1))
  {
    assert ([KwNot] + ts)[1..] == ts;
  }

  lemma ParenthesisedFactor(s: Sql, e: SqlExpr)
    requires forall rest :: EndsCondition(rest) ==> ReadCondition(s + rest) == Some((e, rest))
    ensures IsPredicate([LParen] + s + [RParen], e)
  {
    forall rest | Follows(rest)
      ensures ReadPrimary([LParen] + s + [RParen] + rest) == Some((e, rest))
    {
      assert ReadCondition(s + ([RParen] + rest)) == Some((e, [RParen] + rest));
      ReadParenthesised(s + ([RParen] + rest), e, rest);
      InParentheses(s, rest);
    }
  }

  lemma InParentheses(s: Sql, rest: Sql)
    ensures [LParen] + s + [RParen] + rest == [LParen] + (s + ([RParen] + rest))
  {
  }

  lemma ClauseFactor(parts: seq<Sql>, es: seq<SqlExpr>, op: LogicalOp)
    requires parts != [] && AreFactors(parts, es)
    ensures IsFactor(JoinClause(parts, op), Fold(es, op))
  {
    if |parts| > 1 {
      forall rest | EndsCondition(rest)
        ensures ReadCondition(Join(parts, [Connective(op)]) + rest) == Some((Fold(es, op), rest))
      {
        ReadJoined(parts, es, op, rest);
      }
      ParenthesisedFactor(Join(parts, [Connective(op)]), Fold(es, op));
      PredicateFactor(false, JoinClause(parts, op), Fold(es, op));
      assert NotPrefix(false) + JoinClause(parts, op) == JoinClause(parts, op);
    }
  }

  /** A factor on its own is a search condition. */
  lemma FactorIsCondition(s: Sql, e: SqlExpr, rest: Sql)
    requires IsFactor(s, e) && EndsCondition(rest)
    ensures ReadCondition(s + rest) == Some((e, rest))
  {
    FactorAt(s, e, rest);
    TermStarts(s + rest, e, rest);
    AndsEnd(e, rest);
    ConditionStarts(s + rest, e, rest);
    OrsEnd(e, rest);
  }

  // ----- evaluating the joined text -----

  function Evals(db: Interp, es: seq<SqlExpr>, row: Row, args: seq<Arg>): (ts: seq<Truth>)
    ensures |ts| == |es|
  {
    seq(|es|, i requires 0 <= i < |es| => Eval(db, es[i], row, args))
  }

  lemma {:induction false} EvalFolds(db: Interp, acc: SqlExpr, es: seq<SqlExpr>, row: Row, args: seq<Arg>)
    ensures Eval(db, FoldAnd(acc, es), row, args) == AllOf([Eval(db, acc, row, args)] + Evals(db, es, row, args))
    ensures Eval(db, FoldOr(acc, es), row, args) == AnyOf([Eval(db, acc, row, args)] + Evals(db, es, row, args))
    decreases |es|
  {
    var t := Eval(db, acc, row, args);
    var ts := Evals(db, es, row, args);
    if es == [] {
      assert [t] + ts == [t];
    } else {
      var more := Evals(db, es[1..], row, args);
      assert ts == [ts[0]] + more;
      EvalFolds(db, EAnd(acc, es[0]), es[1..], row, args);
      EvalFolds(db, EOr(acc, es[0]), es[1..], row, args);
      MergeFirst(t, ts[0], more);
    }
  }

  lemma MergeFirst(s: Truth, t: Truth, more: seq<Truth>)
    ensures AllOf([And(s, t)] + more) == AllOf([s] + ([t] + more))
    ensures AnyOf([Or(s, t)] + more) == AnyOf([s] + ([t] + more))
  {
    forall x
      ensures x in [And(s, t)] + more <==> x == And(s, t) || x in more
      ensures x in [Or(s, t)] + more <==> x == Or(s, t) || x in more
      ensures x in [s] + ([t] + more) <==> x == s || x == t || x in more
    {
    }
  }

  lemma EvalFold(db: Interp, es: seq<SqlExpr>, op: LogicalOp, row: Row, args: seq<Arg>)
    requires es != []
    ensures Eval(db, Fold(es, op), row, args)
         == if op == LogicalOr then AnyOf(Evals(db, es, row, args)) else AllOf(Evals(db, es, row, args))
  {
    EvalFolds(db, es[0], es[1..], row, args);
    assert Evals(db, es, row, args) == [Eval(db, es[0], row, args)] + Evals(db, es[1..], row, args);
  }

  // ----- leaves -----

  function Range(n: nat, k: nat): (r: seq<nat>)
    ensures |r| == k
  {
    seq(k, (i: nat) => n + 1 + i)
  }

  lemma {:induction false} ReadPlaceholderList(n: nat, k: nat, rest: Sql)
    requires k > 0
    ensures ReadPlaceholders(Join(PlaceholderParts(n, k), [Comma]) + [RParen] + rest) == Some((Range(n, k), rest))
    decreases k
  {
    var parts := PlaceholderParts(n, k);
    var ts := Join(parts, [Comma]) + [RParen] + rest;
    if k == 1 {
      assert ts == [Ph(n + 1), RParen] + rest;
      assert Range(n, 1) == [n + 1];
    } else {
      assert parts[1..] == PlaceholderParts(n + 1, k - 1);
      assert ts[2..] == Join(parts[1..], [Comma]) + [RParen] + rest;
      ReadPlaceholderList(n + 1, k - 1, rest);
      assert Range(n, k) == [n + 1] + Range(n + 1, k - 1);
    }
  }

  /** The tokens a condition tests, without its NOT, as an expression. */
  ghost predicate IsPredicate(s: Sql, e: SqlExpr) {
    forall rest :: Follows(rest) ==> ReadPrimary(s + rest) == Some((e, rest))
  }

  lemma PredicateFactor(negated: bool, s: Sql, e: SqlExpr)
    requires s != [] && s[0] != KwNot && IsPredicate(s, e)
    ensures IsFactor(NotPrefix(negated) + s, if negated then ENot(e) else e)
  {
    forall rest | Follows(rest)
      ensures ReadFactor(NotPrefix(negated) + s + rest) == Some((if negated then ENot(e) else e, rest))
    {
      assert ReadPrimary(s + rest) == Some((e, rest));
      ReadNegated(negated, s, e, rest);
    }
  }

  lemma ReadNegated(negated: bool, s: Sql, e: SqlExpr, rest: Sql)
    requires s != [] && s[0] != KwNot && ReadPrimary(s + rest) == Some((e, rest))
    ensures ReadFactor(NotPrefix(negated) + s + rest) == Some((if negated then ENot(e) else e, rest))
  {
    ReadFactorOfPrimary(s + rest);
    PrefixFirst(negated, s, rest);
  }

  lemma PrefixFirst(negated: bool, s: Sql, rest: Sql)
    ensures NotPrefix(negated) + s + rest == if negated then [KwNot] + (s + rest) else s + rest
  {
  }

  lemma UnaryPredicate(col: string, test: Tok, i: nat, e: SqlExpr)
    requires test.Cmp? ==> e == ECompare(col, test.op, i)
    requires test == KwLike ==> e == ELike(col, false, i)
    requires test == KwILike ==> e == ELike(col, true, i)
    requires test == AtGt ==> e == EContains(col, false, i)
    requires test.Cmp? || test == KwLike || test == KwILike || test == AtGt
    ensures IsPredicate([Ident(col), test, Ph(i)], e)
  {
    forall rest | Follows(rest)
      ensures ReadPrimary([Ident(col), test, Ph(i)] + rest) == Some((e, rest))
    {
      var ts := [Ident(col), test, Ph(i)] + rest;
      assert ts[1..][1..] == [Ph(i)] + rest;
      assert ts[1..][1..][1..] == rest;
    }
  }

  lemma JsonPredicate(col: string, i: nat)
    ensures IsPredicate([Ident(col), AtGt, Ph(i), AsJsonb], EContains(col, true, i))
  {
    forall rest | Follows(rest)
      ensures ReadPrimary([Ident(col), AtGt, Ph(i), AsJsonb] + rest) == Some((EContains(col, true, i), rest))
    {
      var ts := [Ident(col), AtGt, Ph(i), AsJsonb] + rest;
      assert ts[1..][3..] == rest;
    }
  }

  lemma BetweenPredicate(col: string, i: nat, j: nat)
    ensures IsPredicate([Ident(col), KwBetween, Ph(i), KwAnd, Ph(j)], EBetween(col, i, j))
  {
    forall rest | Follows(rest)
      ensures ReadPrimary([Ident(col), KwBetween, Ph(i), KwAnd, Ph(j)] + rest) == Some((EBetween(col, i, j), rest))
    {
      var ts := [Ident(col), KwBetween, Ph(i), KwAnd, Ph(j)] + rest;
      assert ts[1..][4..] == rest;
    }
  }

  lemma NullFactor(col: string, negated: bool)
    ensures IsFactor(IsNullTest(col, negated), EIsNull(col, negated))
  {
    forall rest | Follows(rest)
      ensures ReadFactor(IsNullTest(col, negated) + rest) == Some((EIsNull(col, negated), rest))
    {
      var ts := IsNullTest(col, negated) + rest;
      assert ts[1..][|NotPrefix(negated)| + 2..] == rest;
    }
  }

  lemma LiteralFactor(b: bool)
    ensures IsFactor([if b then KwTrue else KwFalse], ELiteral(b))
  {
    forall rest | Follows(rest)
      ensures ReadFactor([if b then KwTrue else KwFalse] + rest) == Some((ELiteral(b), rest))
    {
      assert ([if b then KwTrue else KwFalse] + rest)[1..] == rest;
    }
  }

  function InTokens(col: string, notIn: bool, n: nat, k: nat): Sql {
    InTest(col, notIn, Join(PlaceholderParts(n, k), [Comma]))
  }

  lemma InSplit(col: string, notIn: bool, list: Sql, rest: Sql)
    ensures (InTest(col, notIn, list) + rest)[0] == Ident(col)
    ensures (InTest(col, notIn, list) + rest)[1..]
         == (if notIn then [KwNot, KwIn] else [KwIn]) + ([LParen] + (list + [RParen] + rest))
  {
  }

  lemma ReadInTest(col: string, notIn: bool, ts: Sql)
    ensures ReadTest(col, (if notIn then [KwNot, KwIn] else [KwIn]) + ts) == ReadInList(col, notIn, ts)
  {
    assert ((if notIn then [KwNot, KwIn] else [KwIn]) + ts)[if notIn then 2 else 1..] == ts;
  }

  lemma InPredicate(col: string, notIn: bool, n: nat, k: nat)
    requires k > 0
    ensures IsPredicate(InTokens(col, notIn, n, k), EIn(col, notIn, Range(n, k)))
  {
    forall rest | Follows(rest)
      ensures ReadPrimary(InTokens(col, notIn, n, k) + rest) == Some((EIn(col, notIn, Range(n, k)), rest))
    {
      var list := Join(PlaceholderParts(n, k), [Comma]);
      InSplit(col, notIn, list, rest);
      ReadPlaceholderList(n, k, rest);
      var ts := [LParen] + (list + [RParen] + rest);
      assert ts[1..] == list + [RParen] + rest;
      ReadInTest(col, notIn, ts);
    }
  }

  lemma SearchFactor(col: string, f: Func, kind: SearchKind, i: nat)
    requires f == (match kind case Fuzzy => ToTsquery case Phrase => PhrasetoTsquery case Plain => PlaintoTsquery)
    ensures IsFactor([Ident(col), TsMatch, FuncName(f), LParen, SimpleLit, Comma, Ph(i), RParen], ESearch(col, kind, i))
  {
    var search := [FuncName(f), LParen, SimpleLit, Comma, Ph(i), RParen];
    var s := [Ident(col), TsMatch, FuncName(f), LParen, SimpleLit, Comma, Ph(i), RParen];
    assert s == [Ident(col), TsMatch] + search;
    forall rest | Follows(rest)
      ensures ReadFactor(s + rest) == Some((ESearch(col, kind, i), rest))
    {
      SearchReads(col, f, kind, i, search + rest, rest);
      TwoThen(Ident(col), TsMatch, search, rest);
    }
  }

  lemma TwoThen(a: Tok, b: Tok, s: Sql, rest: Sql)
    ensures [a, b] + s + rest == [a] + ([b] + (s + rest))
  {
  }

  lemma SearchReads(col: string, f: Func, kind: SearchKind, i: nat, ts: Sql, rest: Sql)
    requires f == (match kind case Fuzzy => ToTsquery case Phrase => PhrasetoTsquery case Plain => PlaintoTsquery)
    requires ts == [FuncName(f), LParen, SimpleLit, Comma, Ph(i), RParen] + rest
    ensures ReadFactor([Ident(col)] + ([TsMatch] + ts)) == Some((ESearch(col, kind, i), rest))
  {
    assert ts[1..4] == [LParen, SimpleLit, Comma] && ts[6..] == rest;
    assert ([TsMatch] + ts)[1..] == ts;
    assert ([Ident(col)] + ([TsMatch] + ts))[1..] == [TsMatch] + ts;
  }

  /** The arguments of a piece compiled after `n` others sit at their places in the full list. */
  predicate Placed(args: seq<Arg>, n: nat, own: seq<Arg>) {
    n + |own| <= |args| && args[n..n + |own|] == own
  }

  lemma {:induction false} EvalInIsMember(db: Interp, v: Value, n: nat, items: seq<Value>, args: seq<Arg>)
    requires Placed(args, n, Vals(items))
    ensures EvalIn(db, v, Range(n, |items|), args) == Member(db, v, items)
    decreases |items|
  {
    if items != [] {
      assert Range(n, |items|)[1..] == Range(n + 1, |items| - 1);
      assert args[n + 1..n + |items|] == args[n..n + |items|][1..] == Vals(items[1..]);
      EvalInIsMember(db, v, n + 1, items[1..], args);
      assert items == [items[0]] + items[1..];
      assert Bound(args, n + 1) == args[n..n + |items|][0] == Val(items[0]);
    }
  }

  lemma PlacedIsBound(args: seq<Arg>, n: nat, own: seq<Arg>)
    requires Placed(args, n, own)
    ensures BoundTo(args, n, own)
  {
    forall i | 0 <= i < |own|
      ensures Bound(args, n + 1 + i) == own[i]
    {
      assert args[n + i] == args[n..n + |own|][i];
    }
  }

  /** A text search keeps its meaning and loses its Not flag. */
  lemma SearchLeaf(c: Condition, entity: EntityMeta, n: nat, db: Interp, row: Row, args: seq<Arg>) returns (e: SqlExpr)
    requires c.field == ""
    requires CompileLeaf(c, entity, n).Ok? && Placed(args, n, CompileLeaf(c, entity, n).value.args)
    ensures CompileLeaf(c, entity, n).value.sql != []
    ensures IsFactor(CompileLeaf(c, entity, n).value.sql, e)
    ensures Eval(db, e, row, args) == LeafTruth(db, entity, c, row)
  {
    var p := CompileLeaf(c, entity, n).value;
    var kind := if c.operator == OpFuzzy then Fuzzy else if c.operator == OpExact then Phrase else Plain;
    var f := match kind case Fuzzy => ToTsquery case Phrase => PhrasetoTsquery case Plain => PlaintoTsquery;
    SearchFactor(entity.tsvColumns[0], f, kind, n + 1);
    e := ESearch(entity.tsvColumns[0], kind, n + 1);
    PlacedIsBound(args, n, p.args);
    assert Bound(args, n + 1 + 0) == p.args[0];
  }

  /** A compiled leaf is one boolean factor and, unless its Not flag is lost, means what it says. */
  lemma LeafFactor(c: Condition, entity: EntityMeta, n: nat, db: Interp, row: Row, args: seq<Arg>) returns (e: SqlExpr)
    requires CompileLeaf(c, entity, n).Ok? && Placed(args, n, CompileLeaf(c, entity, n).value.args)
    ensures CompileLeaf(c, entity, n).value.sql != []
    ensures IsFactor(CompileLeaf(c, entity, n).value.sql, e)
    ensures FaithfulLeaf(c) ==> Eval(db, e, row, args) == Negate(c.negated, LeafTruth(db, entity, c, row))
  {
    if c.field == "" {
      e := SearchLeaf(c, entity, n, db, row, args);
    } else if c.operator in {OpIn, OpNotIn} {
      e := InFactor(c, entity, n, db, row, args);
    } else {
      PlacedIsBound(args, n, CompileLeaf(c, entity, n).value.args);
      e := PlainFactor(c, entity, n, db, row, args);
    }
  }

  lemma InFactor(c: Condition, entity: EntityMeta, n: nat, db: Interp, row: Row, args: seq<Arg>) returns (e: SqlExpr)
    requires c.field != "" && c.operator in {OpIn, OpNotIn}
    requires CompileLeaf(c, entity, n).Ok? && Placed(args, n, CompileLeaf(c, entity, n).value.args)
    ensures CompileLeaf(c, entity, n).value.sql != []
    ensures IsFactor(CompileLeaf(c, entity, n).value.sql, e)
    ensures FaithfulLeaf(c) ==> Eval(db, e, row, args) == Negate(c.negated, LeafTruth(db, entity, c, row))
  {
    var col, notIn, items := MapColumn(entity, c.field), c.operator == OpNotIn, c.value.items;
    if items == [] {
      LiteralFactor(notIn || c.negated);
      e := ELiteral(notIn || c.negated);
    } else {
      InPredicate(col, notIn, n, |items|);
      PredicateFactor(c.negated, InTokens(col, notIn, n, |items|), EIn(col, notIn, Range(n, |items|)));
      EvalInIsMember(db, Column(row, col), n, items, args);
      e := if c.negated then ENot(EIn(col, notIn, Range(n, |items|))) else EIn(col, notIn, Range(n, |items|));
    }
  }

  lemma NullLeaf(c: Condition, entity: EntityMeta, n: nat, db: Interp, row: Row, args: seq<Arg>) returns (e: SqlExpr)
    requires c.field != "" && c.operator in {OpIsNull, OpIsNotNull}
    ensures CompileLeaf(c, entity, n).Ok? && CompileLeaf(c, entity, n).value.sql != []
    ensures IsFactor(CompileLeaf(c, entity, n).value.sql, e)
    ensures Eval(db, e, row, args) == Negate(c.negated, LeafTruth(db, entity, c, row))
  {
    var col := MapColumn(entity, c.field);
    e := EIsNull(col, (c.operator == OpIsNotNull) != c.negated);
    NullFactor(col, e.negated);
  }

  lemma NegatedPredicate(
    negated: bool, s: Sql, bare: SqlExpr, t: Truth, db: Interp, row: Row, args: seq<Arg>) returns (e: SqlExpr)
    requires s != [] && s[0] != KwNot && IsPredicate(s, bare) && Eval(db, bare, row, args) == t
    ensures NotPrefix(negated) + s != [] && IsFactor(NotPrefix(negated) + s, e)
    ensures Eval(db, e, row, args) == Negate(negated, t)
  {
    PredicateFactor(negated, s, bare);
    e := if negated then ENot(bare) else bare;
  }

  lemma PlainFactor(c: Condition, entity: EntityMeta, n: nat, db: Interp, row: Row, args: seq<Arg>) returns (e: SqlExpr)
    requires c.field != "" && c.operator !in {OpIn, OpNotIn}
    requires CompileLeaf(c, entity, n).Ok?
    requires BoundTo(args, n, CompileLeaf(c, entity, n).value.args)
    ensures CompileLeaf(c, entity, n).value.sql != []
    ensures IsFactor(CompileLeaf(c, entity, n).value.sql, e)
    ensures Eval(db, e, row, args) == Negate(c.negated, LeafTruth(db, entity, c, row))
  {
    if c.operator in {OpIsNull, OpIsNotNull} {
      e := NullLeaf(c, entity, n, db, row, args);
    } else {
      var s, bare := PlainPredicate(c, entity, n, db, row, args);
      e := NegatedPredicate(c.negated, s, bare, LeafTruth(db, entity, c, row), db, row, args);
    }
  }

  predicate BoundTo(args: seq<Arg>, n: nat, own: seq<Arg>) {
    forall i :: 0 <= i < |own| ==> Bound(args, n + 1 + i) == own[i]
  }

  lemma PlainPredicate(c: Condition, entity: EntityMeta, n: nat, db: Interp, row: Row, args: seq<Arg>)
    returns (s: Sql, e: SqlExpr)
    requires c.field != "" && c.operator !in {OpIn, OpNotIn, OpIsNull, OpIsNotNull}
    requires CompileLeaf(c, entity, n).Ok?
    requires BoundTo(args, n, CompileLeaf(c, entity, n).value.args)
    ensures CompileLeaf(c, entity, n).value.sql == NotPrefix(c.negated) + s
    ensures s != [] && s[0] != KwNot && IsPredicate(s, e)
    ensures Eval(db, e, row, args) == LeafTruth(db, entity, c, row)
  {
    if c.operator == OpBetween {
      s, e := BetweenLeaf(c, entity, n, db, row, args);
    } else if c.operator == OpEquals && c.field in entity.jsonColumns {
      s, e := JsonLeaf(c, entity, n, db, row, args);
    } else {
      s, e := UnaryLeaf(c, entity, n, db, row, args);
    }
  }

  lemma BetweenLeaf(c: Condition, entity: EntityMeta, n: nat, db: Interp, row: Row, args: seq<Arg>)
    returns (s: Sql, e: SqlExpr)
    requires c.field != "" && c.operator == OpBetween
    requires CompileLeaf(c, entity, n).Ok? && BoundTo(args, n, CompileLeaf(c, entity, n).value.args)
    ensures CompileLeaf(c, entity, n).value.sql == NotPrefix(c.negated) + s
    ensures s != [] && s[0] != KwNot && IsPredicate(s, e)
    ensures Eval(db, e, row, args) == LeafTruth(db, entity, c, row)
  {
    var p, col := CompileLeaf(c, entity, n).value, MapColumn(entity, c.field);
    s, e := [Ident(col), KwBetween, Ph(n + 1), KwAnd, Ph(n + 2)], EBetween(col, n + 1, n + 2);
    BetweenPredicate(col, n + 1, n + 2);
    assert Bound(args, n + 1 + 0) == p.args[0] && Bound(args, n + 1 + 1) == p.args[1];
  }

  lemma JsonLeaf(c: Condition, entity: EntityMeta, n: nat, db: Interp, row: Row, args: seq<Arg>)
    returns (s: Sql, e: SqlExpr)
    requires c.field != "" && c.operator == OpEquals && c.field in entity.jsonColumns
    requires CompileLeaf(c, entity, n).Ok? && BoundTo(args, n, CompileLeaf(c, entity, n).value.args)
    ensures CompileLeaf(c, entity, n).value.sql == NotPrefix(c.negated) + s
    ensures s != [] && s[0] != KwNot && IsPredicate(s, e)
    ensures Eval(db, e, row, args) == LeafTruth(db, entity, c, row)
  {
    var p, col := CompileLeaf(c, entity, n).value, MapColumn(entity, c.field);
    s, e := [Ident(col), AtGt, Ph(n + 1), AsJsonb], EContains(col, true, n + 1);
    JsonPredicate(col, n + 1);
    assert Bound(args, n + 1 + 0) == p.args[0];
  }

  lemma UnaryLeaf(
    c: Condition, entity: EntityMeta, n: nat, db: Interp, row: Row, args: seq<Arg>) returns (s: Sql, e: SqlExpr)
    requires IsUnary(c, entity)
    requires CompileLeaf(c, entity, n).Ok? && BoundTo(args, n, CompileLeaf(c, entity, n).value.args)
    ensures CompileLeaf(c, entity, n).value.sql == NotPrefix(c.negated) + s
    ensures s != [] && s[0] != KwNot && IsPredicate(s, e)
    ensures Eval(db, e, row, args) == LeafTruth(db, entity, c, row)
  {
    var col := MapColumn(entity, c.field);
    s, e := [Ident(col), UnaryTest(c.operator), Ph(n + 1)], UnaryExpr(c.operator, col, n + 1);
    UnaryPredicate(col, UnaryTest(c.operator), n + 1, e);
    UnaryMeans(c, entity, n, db, row, args);
    assert Bound(args, n + 1 + 0) == CompileLeaf(c, entity, n).value.args[0];
  }

  predicate IsUnary(c: Condition, entity: EntityMeta) {
    c.field != "" && c.operator !in {OpIn, OpNotIn, OpIsNull, OpIsNotNull, OpBetween, OpFuzzy, OpExact}
    && !(c.operator == OpEquals && c.field in entity.jsonColumns)
  }

  function UnaryExpr(op: CompareOp, col: string, i: nat): SqlExpr {
    var test := UnaryTest(op);
    if test.Cmp? then ECompare(col, test.op, i)
    else if test == AtGt then EContains(col, false, i)
    else ELike(col, test == KwILike, i)
  }

  predicate IsComparison(op: CompareOp) {
    op in {OpEquals, OpNotEquals, OpGreaterThan, OpGreaterThanOrEqual, OpLessThan, OpLessThanOrEqual}
  }

  /** The leaf is written as column, test and one placeholder, which mean what the leaf means. */
  ghost predicate UnaryMeant(c: Condition, entity: EntityMeta, n: nat, db: Interp, row: Row, args: seq<Arg>) {
    && CompileLeaf(c, entity, n).Ok?
    && CompileLeaf(c, entity, n).value.sql
       == NotPrefix(c.negated) + [Ident(MapColumn(entity, c.field)), UnaryTest(c.operator), Ph(n + 1)]
    && |CompileLeaf(c, entity, n).value.args| == 1
    && (Bound(args, n + 1) == CompileLeaf(c, entity, n).value.args[0]
        ==> Eval(db, UnaryExpr(c.operator, MapColumn(entity, c.field), n + 1), row, args)
             == LeafTruth(db, entity, c, row))
  }

  lemma ComparisonMeans(c: Condition, entity: EntityMeta, n: nat, db: Interp, row: Row, args: seq<Arg>)
    requires IsUnary(c, entity) && IsComparison(c.operator)
    ensures UnaryMeant(c, entity, n, db, row, args)
  {
  }

  lemma LikeMeans(c: Condition, entity: EntityMeta, n: nat, db: Interp, row: Row, args: seq<Arg>)
    requires IsUnary(c, entity) && c.operator in {OpLike, OpILike, OpContains, OpStartsWith, OpEndsWith}
    ensures UnaryMeant(c, entity, n, db, row, args)
  {
  }

  lemma IncludesMeans(c: Condition, entity: EntityMeta, n: nat, db: Interp, row: Row, args: seq<Arg>)
    requires IsUnary(c, entity) && c.operator in {OpIncludes, OpArrayContains}
    ensures UnaryMeant(c, entity, n, db, row, args)
  {
  }

  lemma MatchMeans(c: Condition, entity: EntityMeta, n: nat, db: Interp, row: Row, args: seq<Arg>)
    requires IsUnary(c, entity) && !IsComparison(c.operator)
    ensures UnaryMeant(c, entity, n, db, row, args)
  {
    if c.operator in {OpIncludes, OpArrayContains} {
      IncludesMeans(c, entity, n, db, row, args);
    } else {
      LikeMeans(c, entity, n, db, row, args);
    }
  }

  lemma UnaryMeans(c: Condition, entity: EntityMeta, n: nat, db: Interp, row: Row, args: seq<Arg>)
    requires IsUnary(c, entity)
    ensures UnaryMeant(c, entity, n, db, row, args)
  {
    if IsComparison(c.operator) {
      ComparisonMeans(c, entity, n, db, row, args);
    } else {
      MatchMeans(c, entity, n, db, row, args);
    }
  }

  function UnaryTest(op: CompareOp): Tok {
    match op
    case OpEquals => Cmp(Equal)
    case OpNotEquals => Cmp(NotEqual)
    case OpGreaterThan => Cmp(Greater)
    case OpGreaterThanOrEqual => Cmp(GreaterOrEqual)
    case OpLessThan => Cmp(Less)
    case OpLessThanOrEqual => Cmp(LessOrEqual)
    case OpLike => KwLike
    case OpIncludes => AtGt
    case OpArrayContains => AtGt
    case _ => KwILike
  }

  // ----- clauses -----

  /** A readable condition compiles to one boolean factor, or to nothing when it is absent. */
  lemma {:induction false} ConditionFactor(
    c: Condition, entity: EntityMeta, n: nat, db: Interp, row: Row, args: seq<Arg>)
    returns (e: SqlExpr)
    requires CompileCondition(c, entity, n).Ok? && ReadableCondition(c)
    requires Placed(args, n, CompileCondition(c, entity, n).value.args)
    ensures CompileCondition(c, entity, n).value.sql == [] <==> Absent(c)
    ensures !Absent(c) ==> IsFactor(CompileCondition(c, entity, n).value.sql, e)
    ensures FaithfulCondition(c)
      ==> ConditionTruth(db, entity, c, row) == (if Absent(c) then [] else [Eval(db, e, row, args)])
    decreases c
  {
    if c.nested.None? {
      e := LeafFactor(c, entity, n, db, row, args);
    } else {
      var inner := WhereFactor(c.nested, entity, n, db, row, args);
      var sql := CompileWhere(c.nested, entity, n).value.sql;
      e := if c.negated then ENot(inner) else inner;
      if c.negated {
        NegatedGroup(sql, inner);
      }
    }
  }

  lemma NegatedGroup(s: Sql, e: SqlExpr)
    requires IsFactor(s, e)
    ensures IsFactor([KwNot, LParen] + s + [RParen], ENot(e))
  {
    forall rest | EndsCondition(rest)
      ensures ReadCondition(s + rest) == Some((e, rest))
    {
      FactorIsCondition(s, e, rest);
    }
    ParenthesisedFactor(s, e);
    PredicateFactor(true, [LParen] + s + [RParen], e);
    assert [KwNot, LParen] + s + [RParen] == NotPrefix(true) + ([LParen] + s + [RParen]);
  }

  lemma CompiledFirst(cs: seq<Condition>, entity: EntityMeta, n: nat)
    requires cs != [] && CompileConditions(cs, entity, n).Ok?
    ensures CompileCondition(cs[0], entity, n).Ok?
    ensures var p := CompileCondition(cs[0], entity, n).value;
      CompileConditions(cs[1..], entity, n + |p.args|).Ok?
      && var after := CompileConditions(cs[1..], entity, n + |p.args|).value;
        CompileConditions(cs, entity, n).value == (if p.sql == [] then after.0 else [p.sql] + after.0, p.args + after.1)
  {
  }

  lemma {:induction false} ConditionsFactors(
    cs: seq<Condition>, entity: EntityMeta, n: nat, db: Interp, row: Row, args: seq<Arg>)
    returns (es: seq<SqlExpr>)
    requires CompileConditions(cs, entity, n).Ok? && AllReadable(cs)
    requires Placed(args, n, CompileConditions(cs, entity, n).value.1)
    ensures AreFactors(CompileConditions(cs, entity, n).value.0, es)
    ensures es == [] <==> AllAbsent(cs)
    ensures AllFaithful(cs) ==> Truths(db, entity, cs, row) == Evals(db, es, row, args)
    decreases cs
  {
    es := [];
    if cs != [] {
      CompiledFirst(cs, entity, n);
      var p := CompileCondition(cs[0], entity, n).value;
      var after := CompileConditions(cs[1..], entity, n + |p.args|).value;
      PlacedParts(args, n, p.args, after.1);
      var e := ConditionFactor(cs[0], entity, n, db, row, args);
      var more := ConditionsFactors(cs[1..], entity, n + |p.args|, db, row, args);
      if Absent(cs[0]) {
        es := more;
        if AllFaithful(cs) {
          TruthsAbsent(db, entity, cs, row);
        }
      } else {
        es := [e] + more;
        EvalsFirst(db, e, more, row, args);
        MoreFactors(p.sql, e, after.0, more);
        if AllFaithful(cs) {
          TruthsPresent(db, entity, cs, row, Eval(db, e, row, args));
        }
      }
    }
  }

  lemma TruthsPresent(db: Interp, entity: EntityMeta, cs: seq<Condition>, row: Row, t: Truth)
    requires cs != [] && ConditionTruth(db, entity, cs[0], row) == [t]
    ensures Truths(db, entity, cs, row) == [t] + Truths(db, entity, cs[1..], row)
  {
  }

  lemma TruthsAbsent(db: Interp, entity: EntityMeta, cs: seq<Condition>, row: Row)
    requires cs != [] && ConditionTruth(db, entity, cs[0], row) == []
    ensures Truths(db, entity, cs, row) == Truths(db, entity, cs[1..], row)
  {
  }

  lemma EvalsFirst(db: Interp, e: SqlExpr, es: seq<SqlExpr>, row: Row, args: seq<Arg>)
    ensures Evals(db, [e] + es, row, args) == [Eval(db, e, row, args)] + Evals(db, es, row, args)
  {
  }

  lemma MoreFactors(s: Sql, e: SqlExpr, parts: seq<Sql>, es: seq<SqlExpr>)
    requires IsFactor(s, e) && AreFactors(parts, es)
    ensures AreFactors([s] + parts, [e] + es)
  {
  }

  lemma PlacedParts(args: seq<Arg>, n: nat, first: seq<Arg>, second: seq<Arg>)
    requires Placed(args, n, first + second)
    ensures Placed(args, n, first) && Placed(args, n + |first|, second)
  {
    var own := args[n..n + |first + second|];
    assert args[n..n + |first|] == own[..|first|] == first;
    assert args[n + |first|..n + |first| + |second|] == own[|first|..] == second;
  }

  lemma {:induction false} WhereFactor(
    where: Option<WhereClause>, entity: EntityMeta, n: nat, db: Interp, row: Row, args: seq<Arg>)
    returns (e: SqlExpr)
    requires CompileWhere(where, entity, n).Ok? && Readable(where)
    requires Placed(args, n, CompileWhere(where, entity, n).value.args)
    ensures CompileWhere(where, entity, n).value.sql == [] <==> EmptyClause(where)
    ensures !EmptyClause(where) ==> IsFactor(CompileWhere(where, entity, n).value.sql, e)
    ensures Faithful(where)
      ==> ClauseTruth(db, entity, where, row) == (if EmptyClause(where) then None else Some(Eval(db, e, row, args)))
    decreases where
  {
    e := ELiteral(true);
    if where.Some? && where.value.conditions != [] {
      var cs, op := where.value.conditions, where.value.operator;
      var es := ConditionsFactors(cs, entity, n, db, row, args);
      if es != [] {
        e := Fold(es, op);
        var parts := CompileConditions(cs, entity, n).value.0;
        ClauseFactor(parts, es, op);
        FactorNotEmpty(JoinClause(parts, op), e);
        EvalFold(db, es, op, row, args);
      }
    }
  }

  lemma FactorNotEmpty(s: Sql, e: SqlExpr)
    requires IsFactor(s, e)
    ensures s != []
  {
    assert ReadFactor(s + []) == Some((e, []));
  }

  // ----- main results -----

  /** The text of a readable clause with something in it, followed by anything that cannot
      continue a search condition, reads back as one expression that has the clause's truth. */
  lemma ClauseMeaning(
    where: Option<WhereClause>, entity: EntityMeta, n: nat, rest: Sql, db: Interp, row: Row, args: seq<Arg>)
    returns (e: SqlExpr)
    requires CompileWhere(where, entity, n).Ok? && Readable(where) && !EmptyClause(where)
    requires EndsCondition(rest) && Placed(args, n, CompileWhere(where, entity, n).value.args)
    ensures ReadCondition(CompileWhere(where, entity, n).value.sql + rest) == Some((e, rest))
    ensures Faithful(where) ==> ClauseTruth(db, entity, where, row) == Some(Eval(db, e, row, args))
  {
    e := WhereFactor(where, entity, n, db, row, args);
    FactorIsCondition(CompileWhere(where, entity, n).value.sql, e, rest);
  }

  /** What a statement on the entity should select: the clause, and the row not soft-deleted. */
  ghost function FilterTruth(db: Interp, entity: EntityMeta, where: Option<WhereClause>, row: Row): Truth {
    var alive := entity.softDelete == "" || Column(row, entity.softDelete) == Null;
    match ClauseTruth(db, entity, where, row)
    case None => FromBool(alive)
    case Some(t) => And(t, FromBool(alive))
  }

  lemma SoftDeleteFactor(col: string)
    ensures IsFactor([Ident(col), KwIs, KwNull], EIsNull(col, false))
  {
    NullFactor(col, false);
    assert IsNullTest(col, false) == [Ident(col), KwIs, KwNull];
  }

  lemma ConjoinedFactors(s: Sql, e: SqlExpr, t: Sql, f: SqlExpr, rest: Sql)
    requires IsFactor(s, e) && IsFactor(t, f) && EndsCondition(rest)
    ensures ReadCondition(Conjoin([s, t]) + rest) == Some((EAnd(e, f), rest))
  {
    var s', t' := [LParen] + s + [RParen], [LParen] + t + [RParen];
    Parenthesised(s, e);
    Parenthesised(t, f);
    ReadJoined([s', t'], [e, f], LogicalAnd, rest);
    assert [e, f][1..] == [f] && [f][1..] == [];
    assert FoldAnd(e, [f]) == EAnd(e, f);
    ConjoinIsJoin(s, t);
  }

  lemma ConjoinIsJoin(s: Sql, t: Sql)
    ensures Conjoin([s, t]) == Join([[LParen] + s + [RParen], [LParen] + t + [RParen]], [KwAnd])
  {
    var s', t' := [LParen] + s + [RParen], [LParen] + t + [RParen];
    assert [s, t][1..] == [t] && [s', t'][1..] == [t'];
    assert Join([s, t], [RParen, KwAnd, LParen]) == s + [RParen, KwAnd, LParen] + t;
    assert Join([s', t'], [KwAnd]) == s' + [KwAnd] + t';
  }

  lemma Parenthesised(s: Sql, e: SqlExpr)
    requires IsFactor(s, e)
    ensures IsFactor([LParen] + s + [RParen], e)
  {
    forall rest | EndsCondition(rest)
      ensures ReadCondition(s + rest) == Some((e, rest))
    {
      FactorIsCondition(s, e, rest);
    }
    ParenthesisedFactor(s, e);
    PredicateFactor(false, [LParen] + s + [RParen], e);
    assert NotPrefix(false) + ([LParen] + s + [RParen]) == [LParen] + s + [RParen];
  }

  /** The clause alone, or the clause and the soft-delete test in parentheses. */
  lemma WithSoftDeleteReads(s: Sql, w: SqlExpr, col: string, rest: Sql) returns (e: SqlExpr)
    requires s != [] ==> IsFactor(s, w)
    requires EndsCondition(rest)
    ensures e == if s == [] then (if col == "" then ELiteral(true) else EIsNull(col, false))
                 else if col == "" then w else EAnd(w, EIsNull(col, false))
    ensures WithSoftDelete(s, col) == [] <==> s == [] && col == ""
    ensures WithSoftDelete(s, col) != [] ==> ReadCondition(WithSoftDelete(s, col) + rest) == Some((e, rest))
  {
    var soft := [Ident(col), KwIs, KwNull];
    if col == "" {
      e := if s == [] then ELiteral(true) else w;
      if s != [] {
        assert WithSoftDelete(s, "") == s;
        FactorIsCondition(s, w, rest);
      }
    } else {
      SoftDeleteFactor(col);
      if s == [] {
        e := EIsNull(col, false);
        assert WithSoftDelete(s, col) == soft;
        FactorIsCondition(soft, e, rest);
      } else {
        e := EAnd(w, EIsNull(col, false));
        assert [s] + [soft] == [s, soft];
        ConjoinedFactors(s, w, soft, EIsNull(col, false), rest);
        assert ReadCondition(Conjoin([s, soft]) + rest) == Some((e, rest));
      }
    }
  }

  /** The same with the soft-delete test added, as every statement's WHERE has it. */
  lemma FilterMeaning(
    where: Option<WhereClause>, entity: EntityMeta, n: nat, rest: Sql, db: Interp, row: Row, args: seq<Arg>)
    returns (e: SqlExpr)
    requires CompileWhereWithSoftDelete(where, entity, n).Ok? && Readable(where)
    requires EndsCondition(rest) && Placed(args, n, CompileWhereWithSoftDelete(where, entity, n).value.args)
    ensures var sql := CompileWhereWithSoftDelete(where, entity, n).value.sql;
      if sql == [] then EmptyClause(where) && entity.softDelete == "" && e == ELiteral(true)
      else ReadCondition(sql + rest) == Some((e, rest))
    ensures Faithful(where) ==> FilterTruth(db, entity, where, row) == Eval(db, e, row, args)
  {
    var s := CompileWhere(where, entity, n).value.sql;
    var w := WhereFactor(where, entity, n, db, row, args);
    e := WithSoftDeleteReads(s, w, entity.softDelete, rest);
    if Faithful(where) {
      FilterTruthIs(where, entity, db, row, args, w, e);
    }
  }

  lemma FilterTruthIs(
    where: Option<WhereClause>, entity: EntityMeta, db: Interp, row: Row, args: seq<Arg>, w: SqlExpr, e: SqlExpr)
    requires ClauseTruth(db, entity, where, row) == if EmptyClause(where) then None else Some(Eval(db, w, row, args))
    requires var col := entity.softDelete;
      e == if EmptyClause(where) then (if col == "" then ELiteral(true) else EIsNull(col, false))
           else if col == "" then w else EAnd(w, EIsNull(col, false))
    ensures FilterTruth(db, entity, where, row) == Eval(db, e, row, args)
  {
  }

  function Agreeing(): Interp {
    Interp((v, a) => true, (v, a) => true, (v, a) => true, (v, a, b) => true, (v, a, b) => true, (v, a, k) => true)
  }

  /** NOT on a text search: the search is true on a row with a value there. */
  lemma NegatedSearchDiffers(c: Condition, entity: EntityMeta, n: nat, args: seq<Arg>)
    returns (e: SqlExpr, row: Row)
    requires CompileLeaf(c, entity, n).Ok? && Placed(args, n, CompileLeaf(c, entity, n).value.args)
    requires c.negated && c.field == ""
    ensures ReadFactor(CompileLeaf(c, entity, n).value.sql) == Some((e, []))
    ensures Eval(Agreeing(), e, row, args) != Negate(c.negated, LeafTruth(Agreeing(), entity, c, row))
  {
    row := map[entity.tsvColumns[0] := Str("")];
    e := SearchLeaf(c, entity, n, Agreeing(), row, args);
    WholeFactor(CompileLeaf(c, entity, n).value.sql, e);
  }

  /** NOT on NOT IN of an empty list: both are true. */
  lemma NegatedNotInDiffers(c: Condition, entity: EntityMeta, n: nat, args: seq<Arg>) returns (e: SqlExpr)
    requires CompileLeaf(c, entity, n).Ok?
    requires c.negated && c.field != "" && c.operator == OpNotIn && c.value == List([])
    ensures ReadFactor(CompileLeaf(c, entity, n).value.sql) == Some((e, []))
    ensures Eval(Agreeing(), e, map[], args) != Negate(c.negated, LeafTruth(Agreeing(), entity, c, map[]))
  {
    LiteralFactor(true);
    e := ELiteral(true);
    WholeFactor(CompileLeaf(c, entity, n).value.sql, e);
  }

  /** The guard on leaves is exact: whenever it fails, some database and row tell the text and
      the condition apart. */
  lemma UnfaithfulLeafDiffers(c: Condition, entity: EntityMeta, n: nat, args: seq<Arg>)
    returns (e: SqlExpr, db: Interp, row: Row)
    requires CompileLeaf(c, entity, n).Ok? && Placed(args, n, CompileLeaf(c, entity, n).value.args)
    requires !FaithfulLeaf(c)
    ensures ReadFactor(CompileLeaf(c, entity, n).value.sql) == Some((e, []))
    ensures Eval(db, e, row, args) != Negate(c.negated, LeafTruth(db, entity, c, row))
  {
    db, row := Agreeing(), map[];
    if c.field == "" {
      e, row := NegatedSearchDiffers(c, entity, n, args);
    } else {
      e := NegatedNotInDiffers(c, entity, n, args);
    }
  }

  lemma WholeFactor(s: Sql, e: SqlExpr)
    requires IsFactor(s, e)
    ensures ReadFactor(s) == Some((e, []))
  {
    assert s + [] == s;
    assert ReadFactor(s + []) == Some((e, []));
  }
}
