/** Writing a query as tokens and parsing it gives the query back; nesting deeper than the limit
    is rejected; a mixture of AND and OR collapses into one OR. */
module ParserRoundTrip {
  import opened Results
  import opened QueryAst
  import opened QueryTokens
  import opened QueryParser
  import Decimal
  import Lexer

  function Word(kind: TokenType): Token {
    Token(kind, Spelling(kind))
  }

  function Name(s: string): Token {
    Token(TokenIdent, s)
  }

  /** A field's name as the lexer reads it: a keyword, in any case of letters, may name a field. */
  function FieldWord(s: string): Token {
    Token(Lexer.KeywordKind(Lexer.ToLower(s)), s)
  }

  lemma KeywordNames(i: nat)
    requires i < Lexer.KEYWORD_COUNT
    ensures IdentifierOrKeyword(Lexer.KeywordAt(i))
  {
  }

  /** What the keyword table gives can name a field, and is spelled as the word looked up. */
  lemma {:induction false} LookupNames(i: nat, w: string)
    requires i <= Lexer.KEYWORD_COUNT
    ensures IdentifierOrKeyword(Lexer.Lookup(i, w))
    ensures Lexer.Lookup(i, w) == TokenIdent || Spelling(Lexer.Lookup(i, w)) == w
    decreases Lexer.KEYWORD_COUNT - i
  {
    if i < Lexer.KEYWORD_COUNT {
      KeywordNames(i);
      LookupNames(i + 1, w);
    }
  }

  lemma FieldWordNames(s: string)
    ensures IdentifierOrKeyword(FieldWord(s).kind) && FieldWord(s).text == s
  {
    LookupNames(0, Lexer.ToLower(s));
  }

  lemma AfterOne(t: Token, ts: Tokens)
    ensures Current([t] + ts) == t && Next([t] + ts) == ts
  {
    assert ([t] + ts)[1..] == ts;
  }

  lemma AfterTwo(t: Token, u: Token, ts: Tokens)
    ensures Current([t, u] + ts) == t && Next([t, u] + ts) == [u] + ts
    ensures Current([u] + ts) == u && Next([u] + ts) == ts
  {
    assert ([t, u] + ts)[1..] == [u] + ts;
    AfterOne(u, ts);
  }

  lemma Grouping(a: Tokens, b: Tokens, c: Tokens)
    ensures a + b + c == a + (b + c)
  {
  }

  // ----- values -----

  /** Values the language can spell without a bare identifier. */
  predicate Writable(v: Value)
    decreases v
  {
    match v
    case Int(n) => Decimal.InInt64(n)
    case Float(text) => LooksFloat(text) && FloatSyntax(text)
    case List(items) => AllWritable(items)
    case Between(_, _) => false
    case _ => true
  }

  predicate AllWritable(vs: seq<Value>)
    decreases vs
  {
    vs == [] || (Writable(vs[0]) && AllWritable(vs[1..]))
  }

  function RenderValue(v: Value): Tokens
    decreases v
  {
    match v
    case Null => [Word(TokenNull)]
    case Bool(b) => [Word(if b then TokenTrue else TokenFalse)]
    case Int(n) => [Token(TokenNumber, Decimal.Print(n))]
    case Float(text) => [Token(TokenNumber, text)]
    case Str(s) => [Token(TokenString, s)]
    case Param(name) => [Token(TokenParam, name)]
    case List(items) => [Word(TokenLBracket)] + RenderItems(items) + [Word(TokenRBracket)]
    case Between(_, _) => []
  }

  function RenderItems(vs: seq<Value>): Tokens
    decreases vs
  {
    if vs == [] then []
    else if |vs| == 1 then RenderValue(vs[0])
    else RenderValue(vs[0]) + [Word(TokenComma)] + RenderItems(vs[1..])
  }

  lemma PrintedIsNotFloat(n: int)
    ensures !LooksFloat(Decimal.Print(n))
  {
    var s := Decimal.Print(n);
    assert forall i :: 0 <= i < |s| ==> s[i] == '-' || Decimal.IsDigit(s[i]);
  }

  lemma {:induction false} ValueParses(v: Value, rest: Tokens)
    requires Writable(v)
    ensures ParseValue(RenderValue(v) + rest) == Ok((v, rest))
    ensures Kind(RenderValue(v) + rest) !in {TokenRBracket, TokenEOF}
    decreases v
  {
    if v.List? {
      ItemsParse(v.items, rest);
      ListValueText(v.items, rest);
      ListParses(RenderItems(v.items) + ([Word(TokenRBracket)] + rest), v.items, rest);
    } else {
      ScalarParses(v, rest);
    }
  }

  lemma ListValueText(items: seq<Value>, rest: Tokens)
    ensures RenderValue(List(items)) + rest
         == [Word(TokenLBracket)] + (RenderItems(items) + ([Word(TokenRBracket)] + rest))
  {
  }

  lemma ListParses(inner: Tokens, items: seq<Value>, rest: Tokens)
    requires ParseItems(inner) == Ok((items, rest))
    ensures ParseValue([Word(TokenLBracket)] + inner) == Ok((List(items), rest))
    ensures Kind([Word(TokenLBracket)] + inner) == TokenLBracket
  {
    AfterOne(Word(TokenLBracket), inner);
  }

  lemma ScalarParses(v: Value, rest: Tokens)
    requires Writable(v) && !v.List?
    ensures ParseValue(RenderValue(v) + rest) == Ok((v, rest))
    ensures Kind(RenderValue(v) + rest) !in {TokenRBracket, TokenEOF}
  {
    if v.Int? {
      PrintedIsNotFloat(v.n);
      Decimal.ReadPrinted(v.n);
      NumberParses(Decimal.Print(v.n), v, rest);
    } else if v.Float? {
      NumberParses(v.text, v, rest);
    } else {
      AfterOne(RenderValue(v)[0], rest);
    }
  }

  lemma NumberParses(text: string, v: Value, rest: Tokens)
    requires ParseNumber(text) == Ok(v)
    ensures var ts := [Token(TokenNumber, text)] + rest;
      Kind(ts) == TokenNumber && ParseValue(ts) == Ok((v, rest))
  {
    AfterOne(Token(TokenNumber, text), rest);
  }

  lemma {:induction false} ItemsParse(vs: seq<Value>, rest: Tokens)
    requires AllWritable(vs)
    ensures ParseItems(RenderItems(vs) + ([Word(TokenRBracket)] + rest)) == Ok((vs, rest))
    decreases vs
  {
    var close := [Word(TokenRBracket)] + rest;
    if vs == [] {
      NoItems(rest);
    } else if |vs| == 1 {
      ValueParses(vs[0], close);
      LastItem(RenderValue(vs[0]) + close, vs[0], rest);
      OneItem(vs);
    } else {
      var more := RenderItems(vs[1..]) + close;
      var after := [Word(TokenComma)] + more;
      ValueParses(vs[0], after);
      ItemsParse(vs[1..], rest);
      ItemsSplit(vs, close);
      ItemsStep(RenderValue(vs[0]) + after, vs[0], more);
      PrependedItems(vs, rest);
    }
  }

  lemma OneItem(vs: seq<Value>)
    requires |vs| == 1
    ensures vs == [vs[0]] && RenderItems(vs) == RenderValue(vs[0])
  {
  }

  lemma PrependedItems(vs: seq<Value>, rest: Tokens)
    requires vs != []
    ensures Prepend([vs[0]], Ok((vs[1..], rest))) == Ok((vs, rest))
  {
    assert [vs[0]] + vs[1..] == vs;
  }

  lemma NoItems(rest: Tokens)
    ensures ParseItems([] + ([Word(TokenRBracket)] + rest)) == Ok(([], rest))
  {
    AfterOne(Word(TokenRBracket), rest);
    assert [] + ([Word(TokenRBracket)] + rest) == [Word(TokenRBracket)] + rest;
  }

  lemma LastItem(ts: Tokens, v: Value, rest: Tokens)
    requires Kind(ts) !in {TokenRBracket, TokenEOF} && ParseValue(ts) == Ok((v, [Word(TokenRBracket)] + rest))
    ensures ParseItems(ts) == Ok(([v], rest))
  {
    AfterOne(Word(TokenRBracket), rest);
    assert [v] + [] == [v];
  }

  lemma ItemsStep(ts: Tokens, v: Value, more: Tokens)
    requires Kind(ts) !in {TokenRBracket, TokenEOF} && ParseValue(ts) == Ok((v, [Word(TokenComma)] + more))
    ensures ParseItems(ts) == Prepend([v], ParseItems(more))
  {
    AfterOne(Word(TokenComma), more);
  }

  lemma ItemsSplit(vs: seq<Value>, rest: Tokens)
    requires |vs| > 1
    ensures RenderItems(vs) + rest == RenderValue(vs[0]) + ([Word(TokenComma)] + (RenderItems(vs[1..]) + rest))
  {
  }

  // ----- conditions -----

  function OperatorKind(op: CompareOp): Option<TokenType> {
    match op
    case OpEquals => Some(TokenEquals)
    case OpNotEquals => Some(TokenNotEquals)
    case OpGreaterThan => Some(TokenGreater)
    case OpGreaterThanOrEqual => Some(TokenGreaterEq)
    case OpLessThan => Some(TokenLess)
    case OpLessThanOrEqual => Some(TokenLessEq)
    case OpContains => Some(TokenContains)
    case OpStartsWith => Some(TokenStartsWith)
    case OpEndsWith => Some(TokenEndsWith)
    case OpLike => Some(TokenLike)
    case OpILike => Some(TokenILike)
    case OpIn => Some(TokenIn)
    case _ => None
  }

  predicate WritableTest(c: Condition) {
    match c.operator
    case OpIsNull | OpIsNotNull => c.value == Null
    case OpBetween => c.value.Between? && Writable(c.value.low) && Writable(c.value.high)
    case _ => OperatorKind(c.operator).Some? && Writable(c.value)
  }

  predicate WritableCondition(c: Condition)
    decreases c
  {
    if c.nested.Some? then
      c.field == "" && c.operator == OpEquals && c.value == Null && WritableClause(c.nested.value)
    else WritableTest(c) && (!c.negated ==> FieldWord(c.field).kind != TokenNot)
  }

  predicate AllConditionsWritable(cs: seq<Condition>)
    decreases cs
  {
    cs == [] || (WritableCondition(cs[0]) && AllConditionsWritable(cs[1..]))
  }

  /** A clause holds a condition; a lone condition is an AND. */
  predicate WritableClause(w: WhereClause)
    decreases w
  {
    w.conditions != [] && (|w.conditions| == 1 ==> w.operator == LogicalAnd) && AllConditionsWritable(w.conditions)
  }

  function RenderTest(c: Condition): Tokens {
    match c.operator
    case OpIsNull => [Word(TokenIs), Word(TokenNull)]
    case OpIsNotNull => [Word(TokenIs), Word(TokenNot), Word(TokenNull)]
    case OpBetween =>
      if c.value.Between?
      then [Word(TokenBetween)] + (RenderValue(c.value.low) + ([Word(TokenAnd)] + RenderValue(c.value.high)))
      else []
    case op =>
      if OperatorKind(op).Some? then [Word(OperatorKind(op).value)] + RenderValue(c.value) else []
  }

  function RenderNot(negated: bool): Tokens {
    if negated then [Word(TokenNot)] else []
  }

  function RenderCondition(c: Condition): Tokens
    decreases c
  {
    RenderNot(c.negated) +
      if c.nested.Some? then [Word(TokenLParen)] + RenderClause(c.nested.value) + [Word(TokenRParen)]
      else [FieldWord(c.field)] + RenderTest(c)
  }

  function Connective(op: LogicalOp): Token {
    Word(if op == LogicalOr then TokenOr else TokenAnd)
  }

  /** Each condition after its own connective. */
  function RenderTail(cs: seq<Condition>, ops: seq<LogicalOp>): Tokens
    requires |cs| == |ops|
    decreases cs
  {
    if cs == [] then []
    else [Connective(ops[0])] + (RenderCondition(cs[0]) + RenderTail(cs[1..], ops[1..]))
  }

  function Uniform(op: LogicalOp, n: nat): (ops: seq<LogicalOp>)
    ensures |ops| == n && forall i :: 0 <= i < n ==> ops[i] == op
  {
    seq(n, i => op)
  }

  function RenderClause(w: WhereClause): Tokens
    decreases w
  {
    if w.conditions == [] then [] else
    RenderCondition(w.conditions[0]) + RenderTail(w.conditions[1..], Uniform(w.operator, |w.conditions| - 1))
  }

  function Max(a: nat, b: nat): nat {
    if a < b then b else a
  }

  /** How many groups a condition nests. */
  function Nesting(c: Condition): nat
    decreases c
  {
    if c.nested.Some? then 1 + ClauseNesting(c.nested.value) else 0
  }

  function MaxNesting(cs: seq<Condition>): nat
    decreases cs
  {
    if cs == [] then 0 else Max(Nesting(cs[0]), MaxNesting(cs[1..]))
  }

  function ClauseNesting(w: WhereClause): nat
    decreases w
  {
    MaxNesting(w.conditions)
  }

  /** A parse that succeeds within the depth limit and is rejected beyond it. */
  function Limited<T>(nesting: nat, depth: nat, x: T, rest: Tokens): Parsed<T> {
    if depth + nesting <= MAX_DEPTH then Ok((x, rest)) else Err(NestedGroupDepth(MAX_DEPTH))
  }

  lemma TestParses(c: Condition, rest: Tokens)
    requires c.nested.None? && WritableTest(c)
    ensures ParseTest(c.field, c.negated, RenderTest(c) + rest) == Ok((c, rest))
  {
    if c.operator in {OpIsNull, OpIsNotNull} {
      NullTestParses(c, rest);
    } else if c.operator == OpBetween {
      BetweenParses(c, rest);
    } else {
      var value := RenderValue(c.value) + rest;
      var word := Word(OperatorKind(c.operator).value);
      Grouping([word], RenderValue(c.value), rest);
      AfterOne(word, value);
      ValueParses(c.value, rest);
      OperatorKindInverse(c.operator);
    }
  }

  lemma OperatorKindInverse(op: CompareOp)
    requires OperatorKind(op).Some?
    ensures SimpleOperator(OperatorKind(op).value) == Some(op)
    ensures OperatorKind(op).value !in {TokenIs, TokenBetween}
  {
  }

  lemma NullParses(field: string, negated: bool, rest: Tokens)
    ensures ParseTest(field, negated, [Word(TokenIs), Word(TokenNull)] + rest)
         == Ok((Leaf(field, OpIsNull, Null, negated), rest))
  {
    AfterTwo(Word(TokenIs), Word(TokenNull), rest);
  }

  lemma NotNullParses(field: string, negated: bool, rest: Tokens)
    ensures ParseTest(field, negated, [Word(TokenIs)] + ([Word(TokenNot), Word(TokenNull)] + rest))
         == Ok((Leaf(field, OpIsNotNull, Null, negated), rest))
  {
    AfterOne(Word(TokenIs), [Word(TokenNot), Word(TokenNull)] + rest);
    AfterTwo(Word(TokenNot), Word(TokenNull), rest);
  }

  lemma NullTestParses(c: Condition, rest: Tokens)
    requires c.nested.None? && c.operator in {OpIsNull, OpIsNotNull} && WritableTest(c)
    ensures ParseTest(c.field, c.negated, RenderTest(c) + rest) == Ok((c, rest))
  {
    if c.operator == OpIsNull {
      NullParses(c.field, c.negated, rest);
    } else {
      NotNullParses(c.field, c.negated, rest);
      assert RenderTest(c) + rest == [Word(TokenIs)] + ([Word(TokenNot), Word(TokenNull)] + rest);
    }
  }

  lemma BetweenParses(c: Condition, rest: Tokens)
    requires c.nested.None? && c.operator == OpBetween && WritableTest(c)
    ensures ParseTest(c.field, c.negated, RenderTest(c) + rest) == Ok((c, rest))
  {
    var high := RenderValue(c.value.high) + rest;
    var and := [Word(TokenAnd)] + high;
    var low := RenderValue(c.value.low) + and;
    BetweenText(c, rest);
    ValueParses(c.value.low, and);
    ValueParses(c.value.high, rest);
    BetweenStep(c.field, c.negated, low, c.value, high, rest);
  }

  lemma BetweenStep(field: string, negated: bool, low: Tokens, v: Value, high: Tokens, rest: Tokens)
    requires v.Between? && ParseValue(low) == Ok((v.low, [Word(TokenAnd)] + high))
    requires ParseValue(high) == Ok((v.high, rest))
    ensures ParseTest(field, negated, [Word(TokenBetween)] + low) == Ok((Leaf(field, OpBetween, v, negated), rest))
  {
    AfterOne(Word(TokenBetween), low);
    AfterOne(Word(TokenAnd), high);
  }

  lemma BetweenText(c: Condition, rest: Tokens)
    requires c.operator == OpBetween && c.value.Between?
    ensures RenderTest(c) + rest
         == [Word(TokenBetween)] + (RenderValue(c.value.low) + ([Word(TokenAnd)] + (RenderValue(c.value.high) + rest)))
  {
  }

  lemma NegationParses(negated: bool, body: Tokens)
    requires !negated ==> Kind(body) != TokenNot
    ensures var ts := RenderNot(negated) + body;
      (Kind(ts) == TokenNot) == negated && (if negated then Next(ts) else ts) == body
  {
    if negated {
      AfterOne(Word(TokenNot), body);
    } else {
      assert RenderNot(false) + body == body;
    }
  }

  predicate EndsClause(rest: Tokens) {
    Kind(rest) !in {TokenAnd, TokenOr}
  }

  lemma {:induction false} ConditionParses(c: Condition, rest: Tokens, depth: nat)
    requires WritableCondition(c) && depth <= MAX_DEPTH
    ensures ParseCondition(RenderCondition(c) + rest, depth) == Limited(Nesting(c), depth, c, rest)
    decreases c, 1
  {
    if c.nested.Some? {
      NestedClauseParses(c, c.nested.value, rest, depth);
      NestedParses(c, c.nested.value, rest, depth);
    } else {
      LeafParses(c, rest, depth);
    }
  }

  lemma {:induction false} NestedClauseParses(c: Condition, w: WhereClause, rest: Tokens, depth: nat)
    requires WritableCondition(c) && c.nested == Some(w) && depth <= MAX_DEPTH
    ensures depth < MAX_DEPTH ==> (ParseWhere(RenderClause(w) + ([Word(TokenRParen)] + rest), depth + 1)
      == Limited(ClauseNesting(w), depth + 1, w, [Word(TokenRParen)] + rest))
    decreases c, 0
  {
    if depth < MAX_DEPTH {
      AfterOne(Word(TokenRParen), rest);
      ClauseParses(w, [Word(TokenRParen)] + rest, depth + 1);
    }
  }

  lemma NestedParses(c: Condition, w: WhereClause, rest: Tokens, depth: nat)
    requires c == Condition("", OpEquals, Null, c.negated, Some(w)) && depth <= MAX_DEPTH
    requires depth < MAX_DEPTH ==> (ParseWhere(RenderClause(w) + ([Word(TokenRParen)] + rest), depth + 1)
      == Limited(ClauseNesting(w), depth + 1, w, [Word(TokenRParen)] + rest))
    ensures ParseCondition(RenderCondition(c) + rest, depth) == Limited(Nesting(c), depth, c, rest)
  {
    var inner := RenderClause(w) + ([Word(TokenRParen)] + rest);
    GroupText(c, rest);
    GroupParses(w, inner, rest, depth);
    ConditionOfGroup(c.negated, [Word(TokenLParen)] + inner, depth);
  }

  lemma ConditionOfGroup(negated: bool, body: Tokens, depth: nat)
    requires Kind(body) == TokenLParen
    ensures ParseCondition(RenderNot(negated) + body, depth)
         == match ParseGroup(body, depth)
            case Err(e) => Err(e)
            case Ok(g) => Ok((Condition("", OpEquals, Null, negated, Some(g.0)), g.1))
  {
    NegationParses(negated, body);
  }

  lemma ConditionOfField(negated: bool, word: Token, after: Tokens, depth: nat)
    requires IdentifierOrKeyword(word.kind) && (!negated ==> word.kind != TokenNot)
    ensures ParseCondition(RenderNot(negated) + ([word] + after), depth) == ParseTest(word.text, negated, after)
  {
    AfterOne(word, after);
    NegationParses(negated, [word] + after);
  }

  lemma LeafParses(c: Condition, rest: Tokens, depth: nat)
    requires c.nested.None? && WritableCondition(c) && depth <= MAX_DEPTH
    ensures ParseCondition(RenderCondition(c) + rest, depth) == Limited(Nesting(c), depth, c, rest)
  {
    LeafText(c, rest);
    FieldWordNames(c.field);
    ConditionOfField(c.negated, FieldWord(c.field), RenderTest(c) + rest, depth);
    TestParses(c, rest);
  }

  lemma LeafText(c: Condition, rest: Tokens)
    requires c.nested.None?
    ensures RenderCondition(c) + rest == RenderNot(c.negated) + ([FieldWord(c.field)] + (RenderTest(c) + rest))
  {
  }

  lemma GroupParses(w: WhereClause, inner: Tokens, rest: Tokens, depth: nat)
    requires depth <= MAX_DEPTH
    requires depth < MAX_DEPTH
      ==> ParseWhere(inner, depth + 1) == Limited(ClauseNesting(w), depth + 1, w, [Word(TokenRParen)] + rest)
    ensures Kind([Word(TokenLParen)] + inner) == TokenLParen
    ensures ParseGroup([Word(TokenLParen)] + inner, depth) == Limited(1 + ClauseNesting(w), depth, w, rest)
  {
    AfterOne(Word(TokenLParen), inner);
    AfterOne(Word(TokenRParen), rest);
  }

  lemma GroupText(c: Condition, rest: Tokens)
    requires c.nested.Some?
    ensures RenderCondition(c) + rest
         == RenderNot(c.negated) + ([Word(TokenLParen)] + (RenderClause(c.nested.value) + ([Word(TokenRParen)] + rest)))
  {
    var text := RenderClause(c.nested.value);
    assert [Word(TokenLParen)] + text + [Word(TokenRParen)] + rest
        == [Word(TokenLParen)] + (text + ([Word(TokenRParen)] + rest));
    Grouping(RenderNot(c.negated), [Word(TokenLParen)] + text + [Word(TokenRParen)], rest);
  }

  /** Any connectives: the conditions come back in order, joined by OR as soon as one OR occurs. */
  lemma {:induction false} TailParses(
    clause: WhereClause, cs: seq<Condition>, ops: seq<LogicalOp>, rest: Tokens, depth: nat)
    requires |cs| == |ops| && AllConditionsWritable(cs) && clause.conditions != []
    requires EndsClause(rest) && depth <= MAX_DEPTH
    ensures WhereTail(clause, RenderTail(cs, ops) + rest, depth)
         == Limited(MaxNesting(cs), depth,
                    WhereClause(clause.conditions + cs,
                                if clause.operator == LogicalOr || LogicalOr in ops then LogicalOr else LogicalAnd),
                    rest)
    decreases cs, 0
  {
    if cs == [] {
      assert RenderTail(cs, ops) + rest == rest;
      assert clause == WhereClause(clause.conditions + cs, clause.operator);
    } else {
      var more := RenderTail(cs[1..], ops[1..]) + rest;
      var body := RenderCondition(cs[0]) + more;
      TailText(cs, ops, rest);
      AfterOne(Connective(ops[0]), body);
      ConditionParses(cs[0], more, depth);
      TailStep(clause, ops[0], body, depth);
      OrFirstOrLater(ops);
      LimitedFirst(cs, depth, WhereClause(clause.conditions + cs,
        if clause.operator == LogicalOr || LogicalOr in ops then LogicalOr else LogicalAnd), rest);
      if depth + Nesting(cs[0]) <= MAX_DEPTH {
        var op := if ops[0] == LogicalOr then LogicalOr else clause.operator;
        TailParses(WhereClause(clause.conditions + [cs[0]], op), cs[1..], ops[1..], rest, depth);
        MoveFirst(clause.conditions, cs);
      }
    }
  }

  lemma OrFirstOrLater(ops: seq<LogicalOp>)
    requires ops != []
    ensures LogicalOr in ops <==> ops[0] == LogicalOr || LogicalOr in ops[1..]
  {
    assert ops == [ops[0]] + ops[1..];
  }

  lemma MoveFirst(cs: seq<Condition>, ds: seq<Condition>)
    requires ds != []
    ensures cs + [ds[0]] + ds[1..] == cs + ds
  {
  }

  lemma TailStep(clause: WhereClause, op: LogicalOp, body: Tokens, depth: nat)
    requires clause.conditions != []
    ensures WhereTail(clause, [Connective(op)] + body, depth)
         == match ParseCondition(body, depth)
            case Err(e) => Err(e)
            case Ok(c) =>
              WhereTail(WhereClause(clause.conditions + [c.0], if op == LogicalOr then LogicalOr else clause.operator),
                        c.1, depth)
  {
    AfterOne(Connective(op), body);
  }

  lemma TailText(cs: seq<Condition>, ops: seq<LogicalOp>, rest: Tokens)
    requires |cs| == |ops| && cs != []
    ensures RenderTail(cs, ops) + rest
         == [Connective(ops[0])] + (RenderCondition(cs[0]) + (RenderTail(cs[1..], ops[1..]) + rest))
  {
  }

  /** Conditions joined by arbitrary connectives, without parentheses. */
  function RenderMixed(cs: seq<Condition>, ops: seq<LogicalOp>): Tokens
    requires |cs| == |ops| + 1
  {
    RenderCondition(cs[0]) + RenderTail(cs[1..], ops)
  }

  /** The parser ignores the precedence of AND over OR: the clause is an OR of all conditions
      exactly when some connective is OR. */
  lemma {:induction false} MixedParses(cs: seq<Condition>, ops: seq<LogicalOp>, rest: Tokens, depth: nat)
    requires |cs| == |ops| + 1 && AllConditionsWritable(cs) && EndsClause(rest) && depth <= MAX_DEPTH
    ensures ParseWhere(RenderMixed(cs, ops) + rest, depth)
         == Limited(MaxNesting(cs), depth, WhereClause(cs, if LogicalOr in ops then LogicalOr else LogicalAnd), rest)
    decreases cs, 1
  {
    var more := RenderTail(cs[1..], ops) + rest;
    Grouping(RenderCondition(cs[0]), RenderTail(cs[1..], ops), rest);
    ConditionParses(cs[0], more, depth);
    WhereStep(RenderCondition(cs[0]) + more, depth);
    LimitedFirst(cs, depth, WhereClause(cs, if LogicalOr in ops then LogicalOr else LogicalAnd), rest);
    if depth + Nesting(cs[0]) <= MAX_DEPTH {
      TailParses(WhereClause([cs[0]], LogicalAnd), cs[1..], ops, rest, depth);
      FirstAndRest(cs);
    }
  }

  lemma WhereStep(ts: Tokens, depth: nat)
    ensures ParseWhere(ts, depth)
         == match ParseCondition(ts, depth)
            case Err(e) => Err(e)
            case Ok(c) => WhereTail(WhereClause([c.0], LogicalAnd), c.1, depth)
  {
  }

  lemma FirstAndRest(cs: seq<Condition>)
    requires cs != []
    ensures [cs[0]] + cs[1..] == cs
  {
  }

  lemma LimitedFirst<T>(cs: seq<Condition>, depth: nat, x: T, rest: Tokens)
    requires cs != []
    ensures Limited(MaxNesting(cs), depth, x, rest)
         == if depth + Nesting(cs[0]) <= MAX_DEPTH then Limited(MaxNesting(cs[1..]), depth, x, rest)
            else Err(NestedGroupDepth(MAX_DEPTH))
  {
  }

  /** Clauses that are all AND or all OR come back as they were. */
  lemma {:induction false} ClauseParses(w: WhereClause, rest: Tokens, depth: nat)
    requires WritableClause(w) && EndsClause(rest) && depth <= MAX_DEPTH
    ensures ParseWhere(RenderClause(w) + rest, depth) == Limited(ClauseNesting(w), depth, w, rest)
    decreases w
  {
    var ops := Uniform(w.operator, |w.conditions| - 1);
    MixedParses(w.conditions, ops, rest, depth);
    if |w.conditions| > 1 {
      assert ops[0] == w.operator;
    }
  }
}
