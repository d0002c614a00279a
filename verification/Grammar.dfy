/** The grammar of the query language: which tokens write which query. Whatever the parser accepts is
    written so, and nothing else stands in it. */
module Grammar {
  import opened Results
  import opened QueryAst
  import opened QueryTokens
  import opened QueryParser
  import opened ParserRoundTrip

  // ----- values -----

  predicate IsScalar(t: Token, v: Value) {
    match t.kind
    case TokenString => v == Str(t.text)
    case TokenIdent => v == Str(t.text)
    case TokenParam => v == Param(t.text)
    case TokenNumber => ParseNumber(t.text) == Ok(v)
    case TokenTrue => v == Bool(true)
    case TokenFalse => v == Bool(false)
    case TokenNull => v == Null
    case _ => false
  }

  /** One token, a bracketed list, or a bare word with texts after commas. */
  ghost predicate IsValue(ts: Tokens, v: Value)
    decreases v
  {
    || (|ts| == 1 && IsScalar(ts[0], v))
    || (v.List? && exists inner: Tokens, open: Token, close: Token ::
          ts == [open] + inner + [close] && open.kind == TokenLBracket && close.kind == TokenRBracket
          && IsItems(inner, v.items))
    || (v.List? && v.items != [] && |ts| > 1 && ts[0].kind == TokenIdent && v.items[0] == Str(ts[0].text)
        && IsBare(ts[1..], v.items[1..]))
  }

  /** Values with commas between them, and perhaps one at the end. */
  ghost predicate IsItems(ts: Tokens, vs: seq<Value>)
    decreases vs
  {
    if vs == [] then ts == []
    else exists a: Tokens, b: Tokens ::
      ts == a + b && IsValue(a, vs[0]) && GoesOn(b, vs) && IsItems(AfterComma(b), vs[1..])
  }

  /** After the first of some things: nothing, if it is the last, or a comma. */
  predicate GoesOn<T>(b: Tokens, xs: seq<T>) {
    if b == [] then |xs| == 1 else b[0].kind == TokenComma
  }

  function AfterComma(b: Tokens): Tokens {
    if b == [] then [] else b[1..]
  }

  ghost predicate IsBare(ts: Tokens, vs: seq<Value>)
    decreases vs
  {
    if vs == [] then ts == [] || (|ts| == 1 && ts[0].kind == TokenComma)
    else
      |ts| > 1 && ts[0].kind == TokenComma && ts[1].kind in {TokenIdent, TokenString, TokenNumber}
      && vs[0] == Str(ts[1].text) && IsBare(ts[2..], vs[1..])
  }

  // ----- conditions -----

  ghost predicate IsTest(ts: Tokens, c: Condition) {
    match c.operator
    case OpIsNull => |ts| == 2 && ts[0].kind == TokenIs && ts[1].kind == TokenNull && c.value == Null
    case OpIsNotNull =>
      |ts| == 3 && ts[0].kind == TokenIs && ts[1].kind == TokenNot && ts[2].kind == TokenNull && c.value == Null
    case OpBetween =>
      c.value.Between? && exists between: Token, low: Tokens, and: Token, high: Tokens ::
        ts == [between] + low + [and] + high && between.kind == TokenBetween && and.kind == TokenAnd
        && IsValue(low, c.value.low) && IsValue(high, c.value.high)
    case _ =>
      ts != [] && OperatorKind(c.operator) == Some(ts[0].kind) && IsValue(ts[1..], c.value)
  }

  ghost predicate IsCondition(ts: Tokens, c: Condition)
    decreases c
  {
    exists nots: Tokens, body: Tokens ::
      ts == nots + body && IsNegation(nots, c.negated) && body != []
      && if c.nested.Some? then
           c.field == "" && c.operator == OpEquals && c.value == Null && IsGroup(body, c.nested.value)
         else IdentifierOrKeyword(body[0].kind) && c.field == body[0].text && IsTest(body[1..], c)
  }

  predicate IsNegation(nots: Tokens, negated: bool) {
    if negated then |nots| == 1 && nots[0].kind == TokenNot else nots == []
  }

  ghost predicate IsGroup(ts: Tokens, w: WhereClause)
    decreases w, 1
  {
    exists open: Token, inner: Tokens, close: Token ::
      ts == [open] + inner + [close] && open.kind == TokenLParen && close.kind == TokenRParen && IsClause(inner, w)
  }

  /** Conditions with connectives between them; one OR makes all of it an OR. */
  ghost predicate IsClause(ts: Tokens, w: WhereClause)
    decreases w, 0
  {
    exists ops ::
      |w.conditions| == |ops| + 1 && w.operator == (if LogicalOr in ops then LogicalOr else LogicalAnd)
      && IsJoined(ts, w.conditions, ops)
  }

  ghost predicate IsJoined(ts: Tokens, cs: seq<Condition>, ops: seq<LogicalOp>)
    requires |cs| == |ops| + 1
    decreases cs
  {
    if ops == [] then IsCondition(ts, cs[0])
    else exists a: Tokens, b: Tokens ::
      ts == a + b && IsCondition(a, cs[0]) && b != []
      && b[0].kind == (if ops[0] == LogicalOr then TokenOr else TokenAnd) && IsJoined(b[1..], cs[1..], ops[1..])
  }

  // ----- what the parser reads as a value -----

  lemma {:induction false} BareSound(ts: Tokens) returns (used: Tokens)
    ensures ts == used + BareItems(ts).1 && IsBare(used, BareItems(ts).0)
    decreases |ts|
  {
    if Kind(ts) != TokenComma {
      used := [];
    } else if Kind(Next(ts)) in {TokenIdent, TokenString, TokenNumber} {
      var more := BareSound(Next(Next(ts)));
      used := [ts[0], ts[1]] + more;
      assert used[2..] == more;
    } else {
      used := [ts[0]];
    }
  }

  /** What is left of what is left. */
  lemma {:induction false} Consumed(ts: Tokens, a: Tokens, middle: Tokens, b: Tokens, rest: Tokens)
    requires ts == a + middle && middle == b + rest
    ensures ts == (a + b) + rest
  {
  }

  lemma {:induction false} WordSound(ts: Tokens) returns (used: Tokens)
    requires Kind(ts) == TokenIdent && ParseValue(ts).Ok?
    ensures ts == used + ParseValue(ts).value.1 && IsValue(used, ParseValue(ts).value.0)
  {
    if Peek(ts).kind == TokenComma {
      var more := BareSound(Next(ts));
      var vs := BareItems(Next(ts)).0;
      used := [ts[0]] + more;
      Consumed(ts, [ts[0]], Next(ts), more, BareItems(Next(ts)).1);
      assert ParseValue(ts) == Ok((List([Str(ts[0].text)] + vs), BareItems(Next(ts)).1));
      BareIsValue(ts[0], more, vs);
    } else {
      used := [ts[0]];
    }
  }

  lemma {:induction false} BareIsValue(t: Token, more: Tokens, vs: seq<Value>)
    requires t.kind == TokenIdent && more != [] && IsBare(more, vs)
    ensures IsValue([t] + more, List([Str(t.text)] + vs))
  {
    assert ([t] + more)[1..] == more && ([Str(t.text)] + vs)[1..] == vs;
  }

  lemma {:induction false} ScalarSound(ts: Tokens)
    requires ParseScalar(ts).Ok?
    ensures ts != [] && IsScalar(ts[0], ParseScalar(ts).value.0) && ParseScalar(ts).value.1 == ts[1..]
  {
  }

  lemma {:induction false} ScalarIsValue(t: Token, v: Value)
    requires IsScalar(t, v)
    ensures IsValue([t], v)
  {
  }

  lemma {:induction false} ListIsValue(open: Token, inner: Tokens, close: Token, vs: seq<Value>)
    requires open.kind == TokenLBracket && close.kind == TokenRBracket && IsItems(inner, vs)
    ensures IsValue([open] + inner + [close], List(vs))
  {
  }

  lemma {:induction false} BracketUsed(ts: Tokens, inner: Tokens, close: Token, rest: Tokens)
    requires ts != [] && ts[1..] == inner + ([close] + rest)
    ensures ts == [ts[0]] + inner + [close] + rest
  {
  }

  lemma {:induction false} ListParse(ts: Tokens)
    requires Kind(ts) == TokenLBracket && ParseValue(ts).Ok?
    ensures ParseItems(Next(ts)).Ok?
    ensures ParseValue(ts).value == (List(ParseItems(Next(ts)).value.0), ParseItems(Next(ts)).value.1)
  {
  }

  lemma {:induction false} ValueSound(ts: Tokens) returns (used: Tokens)
    requires ParseValue(ts).Ok?
    ensures ts == used + ParseValue(ts).value.1 && IsValue(used, ParseValue(ts).value.0)
    decreases |ts|, 1
  {
    if Kind(ts) == TokenLBracket {
      ListParse(ts);
      var inner, close := ItemsSound(Next(ts));
      used := [ts[0]] + inner + [close];
      ListIsValue(ts[0], inner, close, ParseItems(Next(ts)).value.0);
      BracketUsed(ts, inner, close, ParseItems(Next(ts)).value.1);
    } else if Kind(ts) == TokenIdent {
      used := WordSound(ts);
    } else {
      ScalarSound(ts);
      used := [ts[0]];
      ScalarIsValue(ts[0], ParseValue(ts).value.0);
    }
  }

  lemma {:induction false} ItemsParse1(ts: Tokens)
    requires Kind(ts) != TokenRBracket && ParseItems(ts).Ok?
    ensures ParseValue(ts).Ok? && ItemsAfter(ParseValue(ts).value.1).Ok?
    ensures var v := ParseValue(ts).value; var more := ItemsAfter(v.1).value;
      ParseItems(ts).value == ([v.0] + more.0, more.1)
  {
  }

  lemma {:induction false} ItemsSound(ts: Tokens) returns (inner: Tokens, close: Token)
    requires ParseItems(ts).Ok?
    ensures ts == inner + ([close] + ParseItems(ts).value.1) && close.kind == TokenRBracket
    ensures IsItems(inner, ParseItems(ts).value.0)
    decreases |ts|, 2
  {
    if Kind(ts) == TokenRBracket {
      inner, close := [], ts[0];
    } else {
      ItemsParse1(ts);
      var a := ValueSound(ts);
      var v := ParseValue(ts).value;
      var b;
      b, close := ItemsAfterSound(v.1);
      var more := ItemsAfter(v.1).value;
      inner := a + b;
      Consumed(ts, a, v.1, b, [close] + more.1);
      ItemsJoin(a, b, v.0, more.0);
    }
  }

  lemma {:induction false} ItemsJoin(a: Tokens, b: Tokens, v: Value, more: seq<Value>)
    requires IsValue(a, v) && (b == [] ==> more == []) && (b != [] ==> b[0].kind == TokenComma)
    requires IsItems(AfterComma(b), more)
    ensures IsItems(a + b, [v] + more)
  {
    assert ([v] + more)[1..] == more;
  }

  lemma {:induction false} ItemsAfterSound(ts: Tokens) returns (b: Tokens, close: Token)
    requires ItemsAfter(ts).Ok?
    ensures ts == b + ([close] + ItemsAfter(ts).value.1) && close.kind == TokenRBracket
    ensures (b == [] ==> ItemsAfter(ts).value.0 == []) && (b != [] ==> b[0].kind == TokenComma)
    ensures IsItems(AfterComma(b), ItemsAfter(ts).value.0)
    decreases |ts|, 3
  {
    if Kind(ts) == TokenComma {
      var inner;
      inner, close := ItemsSound(Next(ts));
      b := [ts[0]] + inner;
      Consumed(ts, [ts[0]], Next(ts), inner, [close] + ParseItems(Next(ts)).value.1);
      assert AfterComma(b) == inner;
    } else {
      b, close := [], ts[0];
    }
  }

  // ----- what it reads as a condition -----

  lemma {:induction false} NullSound(field: string, negated: bool, ts: Tokens) returns (used: Tokens)
    requires Kind(ts) == TokenIs && ParseTest(field, negated, ts).Ok?
    ensures ts == used + ParseTest(field, negated, ts).value.1 && IsTest(used, ParseTest(field, negated, ts).value.0)
  {
    used := if Kind(Next(ts)) == TokenNull then [ts[0], ts[1]] else [ts[0], ts[1], ts[2]];
  }

  lemma {:induction false} BetweenIsTest(between: Token, low: Tokens, and: Token, high: Tokens, c: Condition)
    requires c.operator == OpBetween && c.value.Between? && between.kind == TokenBetween && and.kind == TokenAnd
    requires IsValue(low, c.value.low) && IsValue(high, c.value.high)
    ensures IsTest([between] + low + [and] + high, c)
  {
  }

  lemma {:induction false} BetweenUsed(ts: Tokens, low: Tokens, middle: Tokens, high: Tokens, rest: Tokens)
    requires ts != [] && middle != [] && ts[1..] == low + middle && middle[1..] == high + rest
    ensures ts == [ts[0]] + low + [middle[0]] + high + rest
  {
  }

  lemma {:induction false} BetweenSound(field: string, negated: bool, ts: Tokens) returns (used: Tokens)
    requires Kind(ts) == TokenBetween && ParseTest(field, negated, ts).Ok?
    ensures ts == used + ParseTest(field, negated, ts).value.1 && IsTest(used, ParseTest(field, negated, ts).value.0)
  {
    var low := ValueSound(Next(ts));
    var middle := ParseValue(Next(ts)).value.1;
    var high := ValueSound(Next(middle));
    used := [ts[0]] + low + [middle[0]] + high;
    BetweenUsed(ts, low, middle, high, ParseValue(Next(middle)).value.1);
    BetweenIsTest(ts[0], low, middle[0], high, ParseTest(field, negated, ts).value.0);
  }

  lemma {:induction false} CompareIsTest(op: Token, value: Tokens, c: Condition)
    requires SimpleOperator(op.kind) == Some(c.operator) && IsValue(value, c.value)
    ensures IsTest([op] + value, c)
  {
    OperatorSound(op.kind);
    assert ([op] + value)[1..] == value;
  }

  lemma {:induction false} TestSound(field: string, negated: bool, ts: Tokens) returns (used: Tokens)
    requires ParseTest(field, negated, ts).Ok?
    ensures ts == used + ParseTest(field, negated, ts).value.1 && IsTest(used, ParseTest(field, negated, ts).value.0)
  {
    if Kind(ts) == TokenIs {
      used := NullSound(field, negated, ts);
    } else if Kind(ts) == TokenBetween {
      used := BetweenSound(field, negated, ts);
    } else {
      var value := ValueSound(Next(ts));
      used := [ts[0]] + value;
      Consumed(ts, [ts[0]], Next(ts), value, ParseValue(Next(ts)).value.1);
      CompareIsTest(ts[0], value, ParseTest(field, negated, ts).value.0);
    }
  }

  lemma {:induction false} TestIsLeaf(field: string, negated: bool, ts: Tokens)
    requires ParseTest(field, negated, ts).Ok?
    ensures var c := ParseTest(field, negated, ts).value.0;
      c.field == field && c.negated == negated && c.nested == None
  {
  }

  lemma {:induction false} OperatorSound(kind: TokenType)
    requires SimpleOperator(kind).Some?
    ensures OperatorKind(SimpleOperator(kind).value) == Some(kind)
    ensures SimpleOperator(kind).value !in {OpIsNull, OpIsNotNull, OpBetween}
  {
  }

  lemma {:induction false} NegationSound(ts: Tokens) returns (nots: Tokens)
    ensures var negated := Kind(ts) == TokenNot;
      IsNegation(nots, negated) && ts == nots + (if negated then Next(ts) else ts)
  {
    nots := if Kind(ts) == TokenNot then [ts[0]] else [];
  }

  lemma {:induction false} FieldCondition(nots: Tokens, word: Token, test: Tokens, c: Condition)
    requires IsNegation(nots, c.negated) && IdentifierOrKeyword(word.kind) && c.field == word.text
    requires c.nested == None && IsTest(test, c)
    ensures IsCondition(nots + ([word] + test), c)
  {
    var body := [word] + test;
    assert body[1..] == test;
  }

  lemma {:induction false} GroupCondition(nots: Tokens, body: Tokens, negated: bool, w: WhereClause)
    requires IsNegation(nots, negated) && body != [] && IsGroup(body, w)
    ensures IsCondition(nots + body, Condition("", OpEquals, Null, negated, Some(w)))
  {
  }

  lemma {:induction false} LeafParse(ts: Tokens, body: Tokens, depth: nat)
    requires body == (if Kind(ts) == TokenNot then Next(ts) else ts) && Kind(body) != TokenLParen
    requires ParseCondition(ts, depth).Ok?
    ensures body != [] && IdentifierOrKeyword(body[0].kind)
    ensures ParseCondition(ts, depth) == ParseTest(body[0].text, Kind(ts) == TokenNot, Next(body))
  {
  }

  lemma {:induction false} LeafSound(ts: Tokens, nots: Tokens, body: Tokens, depth: nat) returns (used: Tokens)
    requires body == (if Kind(ts) == TokenNot then Next(ts) else ts) && Kind(body) != TokenLParen
    requires ts == nots + body && IsNegation(nots, Kind(ts) == TokenNot) && ParseCondition(ts, depth).Ok?
    ensures ts == used + ParseCondition(ts, depth).value.1 && IsCondition(used, ParseCondition(ts, depth).value.0)
    ensures ParseCondition(ts, depth).value.0.nested == None
  {
    LeafParse(ts, body, depth);
    var test := TestSound(body[0].text, Kind(ts) == TokenNot, Next(body));
    var c := ParseTest(body[0].text, Kind(ts) == TokenNot, Next(body)).value;
    TestIsLeaf(body[0].text, Kind(ts) == TokenNot, Next(body));
    used := nots + ([body[0]] + test);
    FieldCondition(nots, body[0], test, c.0);
    LeafUsed(ts, nots, body, test, c.1);
  }

  lemma {:induction false} LeafUsed(ts: Tokens, nots: Tokens, body: Tokens, test: Tokens, rest: Tokens)
    requires ts == nots + body && body != [] && body[1..] == test + rest
    ensures ts == nots + ([body[0]] + test) + rest
  {
  }

  lemma {:induction false} GroupParse(ts: Tokens, body: Tokens, depth: nat)
    requires body == (if Kind(ts) == TokenNot then Next(ts) else ts) && Kind(body) == TokenLParen
    requires ParseCondition(ts, depth).Ok?
    ensures ParseGroup(body, depth).Ok?
    ensures ParseCondition(ts, depth).value == (
      Condition("", OpEquals, Null, Kind(ts) == TokenNot, Some(ParseGroup(body, depth).value.0)),
      ParseGroup(body, depth).value.1)
  {
  }

  lemma {:induction false} ConditionSound(ts: Tokens, depth: nat) returns (used: Tokens)
    requires depth <= MAX_DEPTH && ParseCondition(ts, depth).Ok?
    ensures ts == used + ParseCondition(ts, depth).value.1 && IsCondition(used, ParseCondition(ts, depth).value.0)
    ensures depth + Nesting(ParseCondition(ts, depth).value.0) <= MAX_DEPTH
    decreases |ts|, 2
  {
    var negated := Kind(ts) == TokenNot;
    var body := if negated then Next(ts) else ts;
    var nots := NegationSound(ts);
    if Kind(body) == TokenLParen {
      GroupParse(ts, body, depth);
      var group := GroupSound(body, depth);
      var w := ParseGroup(body, depth).value;
      used := nots + group;
      Consumed(ts, nots, body, group, w.1);
      GroupCondition(nots, group, negated, w.0);
    } else {
      used := LeafSound(ts, nots, body, depth);
    }
  }

  lemma {:induction false} GroupUsed(ts: Tokens, inner: Tokens, after: Tokens)
    requires ts != [] && after != [] && ts[1..] == inner + after
    ensures ts == [ts[0]] + inner + [after[0]] + after[1..]
  {
  }

  lemma {:induction false} GroupOf(open: Token, inner: Tokens, close: Token, w: WhereClause)
    requires open.kind == TokenLParen && close.kind == TokenRParen && IsClause(inner, w)
    ensures IsGroup([open] + inner + [close], w)
  {
  }

  lemma {:induction false} GroupBody(ts: Tokens, depth: nat)
    requires Kind(ts) == TokenLParen && ParseGroup(ts, depth).Ok?
    ensures depth < MAX_DEPTH && ParseWhere(Next(ts), depth + 1).Ok?
    ensures var w := ParseWhere(Next(ts), depth + 1).value;
      w.1 != [] && w.1[0].kind == TokenRParen && ParseGroup(ts, depth) == Ok((w.0, w.1[1..]))
  {
  }

  lemma {:induction false} GroupSound(ts: Tokens, depth: nat) returns (used: Tokens)
    requires Kind(ts) == TokenLParen && depth <= MAX_DEPTH && ParseGroup(ts, depth).Ok?
    ensures ts == used + ParseGroup(ts, depth).value.1 && used != [] && IsGroup(used, ParseGroup(ts, depth).value.0)
    ensures depth + 1 + ClauseNesting(ParseGroup(ts, depth).value.0) <= MAX_DEPTH
    decreases |ts|, 1
  {
    GroupBody(ts, depth);
    var inner := ClauseSound(Next(ts), depth + 1);
    var w := ParseWhere(Next(ts), depth + 1).value;
    used := [ts[0]] + inner + [w.1[0]];
    GroupOf(ts[0], inner, w.1[0], w.0);
    GroupUsed(ts, inner, w.1);
  }

  lemma {:induction false} WhereParse(ts: Tokens, depth: nat)
    requires ParseWhere(ts, depth).Ok?
    ensures ParseCondition(ts, depth).Ok?
    ensures var c := ParseCondition(ts, depth).value;
      ParseWhere(ts, depth) == WhereTail(WhereClause([c.0], LogicalAnd), c.1, depth)
  {
  }

  lemma {:induction false} ClauseOf(a: Tokens, b: Tokens, c: Condition, cs: seq<Condition>, ops: seq<LogicalOp>)
    requires |cs| == |ops| && IsCondition(a, c) && IsTail(b, cs, ops)
    ensures IsClause(a + b, WhereClause([c] + cs, if LogicalOr in ops then LogicalOr else LogicalAnd))
    ensures MaxNesting([c] + cs) == Max(Nesting(c), MaxNesting(cs))
  {
    JoinFirst(a, b, c, cs, ops);
    assert ([c] + cs)[1..] == cs;
  }

  lemma {:induction false} ClauseSound(ts: Tokens, depth: nat) returns (used: Tokens)
    requires depth <= MAX_DEPTH && ParseWhere(ts, depth).Ok?
    ensures ts == used + ParseWhere(ts, depth).value.1 && IsClause(used, ParseWhere(ts, depth).value.0)
    ensures depth + ClauseNesting(ParseWhere(ts, depth).value.0) <= MAX_DEPTH
    decreases |ts|, 3
  {
    WhereParse(ts, depth);
    var first := ConditionSound(ts, depth);
    var c := ParseCondition(ts, depth).value;
    var ops, cs, more := TailSound(WhereClause([c.0], LogicalAnd), c.1, depth);
    used := first + more;
    Consumed(ts, first, c.1, more, ParseWhere(ts, depth).value.1);
    ClauseOf(first, more, c.0, cs, ops);
  }

  /** Each further condition behind its connective. */
  ghost predicate IsTail(ts: Tokens, cs: seq<Condition>, ops: seq<LogicalOp>)
    requires |cs| == |ops|
  {
    if ops == [] then ts == []
    else
      ts != [] && ts[0].kind == (if ops[0] == LogicalOr then TokenOr else TokenAnd) && IsJoined(ts[1..], cs, ops[1..])
  }

  lemma {:induction false} JoinFirst(a: Tokens, b: Tokens, c: Condition, cs: seq<Condition>, ops: seq<LogicalOp>)
    requires |cs| == |ops| && IsCondition(a, c) && IsTail(b, cs, ops)
    ensures IsJoined(a + b, [c] + cs, ops)
  {
    assert ([c] + cs)[1..] == cs;
    assert a + [] == a;
  }

  function OpOf(kind: TokenType): LogicalOp {
    if kind == TokenOr then LogicalOr else LogicalAnd
  }

  function Extended(clause: WhereClause, c: Condition, op: LogicalOp): WhereClause {
    WhereClause(clause.conditions + [c], if op == LogicalOr then LogicalOr else clause.operator)
  }

  lemma {:induction false} TailParse(clause: WhereClause, ts: Tokens, depth: nat)
    requires clause.conditions != [] && Kind(ts) in {TokenAnd, TokenOr} && WhereTail(clause, ts, depth).Ok?
    ensures ParseCondition(Next(ts), depth).Ok?
    ensures var c := ParseCondition(Next(ts), depth).value;
      WhereTail(clause, ts, depth) == WhereTail(Extended(clause, c.0, OpOf(Kind(ts))), c.1, depth)
  {
  }

  lemma {:induction false} TailOf(
    word: Token, a: Tokens, b: Tokens, c: Condition, cs: seq<Condition>, ops: seq<LogicalOp>)
    requires word.kind in {TokenAnd, TokenOr} && |cs| == |ops| && IsCondition(a, c) && IsTail(b, cs, ops)
    ensures IsTail([word] + (a + b), [c] + cs, [OpOf(word.kind)] + ops)
    ensures MaxNesting([c] + cs) == Max(Nesting(c), MaxNesting(cs))
  {
    JoinFirst(a, b, c, cs, ops);
    assert ([word] + (a + b))[1..] == a + b && ([OpOf(word.kind)] + ops)[1..] == ops && ([c] + cs)[1..] == cs;
  }

  lemma {:induction false} ExtendedTwice(
    clause: WhereClause, c: Condition, op: LogicalOp, cs: seq<Condition>, ops: seq<LogicalOp>)
    ensures var next := Extended(clause, c, op);
      WhereClause(next.conditions + cs, if next.operator
           == LogicalOr || LogicalOr in ops then LogicalOr else LogicalAnd)
      == WhereClause(clause.conditions + ([c] + cs),
           if clause.operator == LogicalOr || LogicalOr in [op] + ops then LogicalOr else LogicalAnd)
  {
    assert clause.conditions + [c] + cs == clause.conditions + ([c] + cs);
  }

  lemma {:induction false} TailSound(clause: WhereClause, ts: Tokens, depth: nat)
    returns (ops: seq<LogicalOp>, cs: seq<Condition>, used: Tokens)
    requires depth <= MAX_DEPTH && clause.conditions != [] && WhereTail(clause, ts, depth).Ok?
    ensures |ops| == |cs| && ts == used + WhereTail(clause, ts, depth).value.1 && IsTail(used, cs, ops)
    ensures WhereTail(clause, ts, depth).value.0 == WhereClause(
      clause.conditions + cs, if clause.operator == LogicalOr || LogicalOr in ops then LogicalOr else LogicalAnd)
    ensures depth + MaxNesting(cs) <= MAX_DEPTH
    decreases |ts|, 3
  {
    if Kind(ts) == TokenAnd || Kind(ts) == TokenOr {
      TailParse(clause, ts, depth);
      var first := ConditionSound(Next(ts), depth);
      var c := ParseCondition(Next(ts), depth).value;
      var op := OpOf(Kind(ts));
      var ops', cs', more := TailSound(Extended(clause, c.0, op), c.1, depth);
      ops, cs, used := [op] + ops', [c.0] + cs', [ts[0]] + (first + more);
      TailOf(ts[0], first, more, c.0, cs', ops');
      ExtendedTwice(clause, c.0, op, cs', ops');
      Consumed(Next(ts), first, c.1, more, WhereTail(clause, ts, depth).value.1);
      Consumed(ts, [ts[0]], Next(ts), first + more, WhereTail(clause, ts, depth).value.1);
    } else {
      ops, cs, used := [], [], [];
      assert clause.conditions + [] == clause.conditions;
    }
  }
}
