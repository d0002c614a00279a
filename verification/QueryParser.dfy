/** The recursive-descent parser (internal/query/parser.go): each parse method as a function from
    the remaining tokens to a result and the tokens left, and the class whose methods compute
    the same while moving `pos`, `current` and `depth`. */
module QueryParser {
  import opened Results
  import opened QueryAst
  import opened QueryTokens
  import Decimal

  datatype ParseError =
    | UnexpectedEOF
    | UnexpectedToken(got: Token, expected: string)
    | NestedGroupDepth(max: nat)
    | InvalidValue(got: Token, expected: string)
    | BadNumber(text: string)

  type Tokens = seq<Token>

  /** A parsed value with the tokens left over. */
  type Parsed<T> = Result<(T, Tokens), ParseError>

  const MAX_DEPTH: nat := 10

  const END := Token(TokenEOF, "")

  function Current(ts: Tokens): Token {
    if ts == [] then END else ts[0]
  }

  function Kind(ts: Tokens): TokenType {
    Current(ts).kind
  }

  /** The tokens after the current one; the end stays the end. */
  function Next(ts: Tokens): (r: Tokens)
    ensures Kind(ts) != TokenEOF ==> |r| < |ts|
  {
    if ts == [] then [] else ts[1..]
  }

  function Peek(ts: Tokens): Token {
    Current(Next(ts))
  }

  function Unexpected<T>(ts: Tokens, expected: string): Result<T, ParseError> {
    Err(UnexpectedToken(Current(ts), expected))
  }

  /** Items read before a list that may still fail. */
  function Prepend<T>(xs: seq<T>, r: Parsed<seq<T>>): Parsed<seq<T>> {
    match r
    case Ok(p) => Ok((xs + p.0, p.1))
    case Err(e) => Err(e)
  }

  /** Keywords may name fields too. */
  predicate IdentifierOrKeyword(kind: TokenType) {
    match kind
    case TokenIdent | TokenCount | TokenSum | TokenAvg | TokenMin | TokenMax
       | TokenFrom | TokenWhere | TokenAnd | TokenOr | TokenNot
       | TokenIn | TokenIs | TokenNull | TokenOrder | TokenBy
       | TokenAsc | TokenDesc | TokenLimit | TokenOffset
       | TokenWith | TokenInclude | TokenSet | TokenTrue | TokenFalse
       | TokenLike | TokenILike | TokenBetween | TokenHaving | TokenGroup
       | TokenContains | TokenStartsWith | TokenEndsWith
       | TokenSelect | TokenUpdate | TokenDelete => true
    case _ => false
  }

  // ----- values -----

  predicate LooksFloat(s: string) {
    '.' in s || 'e' in s || 'E' in s
  }

  function SkipDigits(s: string): (r: string)
    ensures |r| <= |s|
  {
    if s != "" && Decimal.IsDigit(s[0]) then SkipDigits(s[1..]) else s
  }

  predicate ExponentSyntax(s: string) {
    s == "" ||
    (s[0] in {'e', 'E'} &&
     var t := if |s| > 1 && s[1] in {'+', '-'} then s[2..] else s[1..];
     Decimal.AllDigits(t))
  }

  /** Decimal floating-point syntax: sign, digits with a point, exponent; a digit is required. */
  predicate FloatSyntax(s: string) {
    var t := if s != "" && s[0] in {'+', '-'} then s[1..] else s;
    var afterInt := SkipDigits(t);
    if afterInt != "" && afterInt[0] == '.' then
      var afterFrac := SkipDigits(afterInt[1..]);
      |t| - |afterFrac| > 1 && ExponentSyntax(afterFrac)
    else |afterInt| < |t| && ExponentSyntax(afterInt)
  }

  function ParseNumber(text: string): Result<Value, ParseError> {
    if LooksFloat(text) then
      if FloatSyntax(text) then Ok(Float(text)) else Err(BadNumber(text))
    else
      match Decimal.ParseInt64(text)
      case Some(n) => Ok(Int(n))
      case None => Err(BadNumber(text))
  }

  /** A value of one token. */
  function ParseScalar(ts: Tokens): (r: Parsed<Value>)
    ensures r.Ok? ==> |r.value.1| < |ts|
  {
    var text := Current(ts).text;
    match Kind(ts)
    case TokenString => Ok((Str(text), Next(ts)))
    case TokenNumber =>
      var v :- ParseNumber(text);
      Ok((v, Next(ts)))
    case TokenTrue => Ok((Bool(true), Next(ts)))
    case TokenFalse => Ok((Bool(false), Next(ts)))
    case TokenNull => Ok((Null, Next(ts)))
    case TokenParam => Ok((Param(text), Next(ts)))
    case _ => Unexpected(ts, "value")
  }

  function ParseValue(ts: Tokens): (r: Parsed<Value>)
    ensures r.Ok? ==> |r.value.1| < |ts|
    decreases |ts|, 1
  {
    if Kind(ts) == TokenLBracket then
      var items :- ParseItems(Next(ts));
      Ok((List(items.0), items.1))
    else if Kind(ts) == TokenIdent then
      var text := Current(ts).text;
      if Peek(ts).kind == TokenComma then
        var more := BareItems(Next(ts));
        Ok((List([Str(text)] + more.0), more.1))
      else Ok((Str(text), Next(ts)))
    else ParseScalar(ts)
  }

  /** The items of a bracketed list up to and including the closing bracket. */
  function ParseItems(ts: Tokens): (r: Parsed<seq<Value>>)
    ensures r.Ok? ==> |r.value.1| < |ts|
    decreases |ts|, 2
  {
    if Kind(ts) == TokenRBracket then Ok(([], Next(ts)))
    else if Kind(ts) == TokenEOF then Unexpected(ts, "]")
    else
      var v :- ParseValue(ts);
      Prepend([v.0], ItemsAfter(v.1))
  }

  function ItemsAfter(ts: Tokens): (r: Parsed<seq<Value>>)
    ensures r.Ok? ==> |r.value.1| < |ts|
    decreases |ts|, 3
  {
    if Kind(ts) == TokenComma then ParseItems(Next(ts))
    else if Kind(ts) == TokenRBracket then Ok(([], Next(ts)))
    else Unexpected(ts, ", or ]")
  }

  /** What a bare identifier swallows: a comma list, every item taken as text. */
  function BareItems(ts: Tokens): (r: (seq<Value>, Tokens))
    ensures |r.1| <= |ts|
    decreases |ts|
  {
    if Kind(ts) != TokenComma then ([], ts)
    else if Kind(Next(ts)) in {TokenIdent, TokenString, TokenNumber} then
      var more := BareItems(Next(Next(ts)));
      ([Str(Current(Next(ts)).text)] + more.0, more.1)
    else ([], Next(ts))
  }

  // ----- conditions -----

  /** Operators that are followed by one value. */
  function SimpleOperator(kind: TokenType): Option<CompareOp> {
    match kind
    case TokenEquals => Some(OpEquals)
    case TokenNotEquals => Some(OpNotEquals)
    case TokenGreater => Some(OpGreaterThan)
    case TokenGreaterEq => Some(OpGreaterThanOrEqual)
    case TokenLess => Some(OpLessThan)
    case TokenLessEq => Some(OpLessThanOrEqual)
    case TokenContains => Some(OpContains)
    case TokenStartsWith => Some(OpStartsWith)
    case TokenEndsWith => Some(OpEndsWith)
    case TokenLike => Some(OpLike)
    case TokenILike => Some(OpILike)
    case TokenIn => Some(OpIn)
    case _ => None
  }

  function Leaf(field: string, op: CompareOp, value: Value, negated: bool): Condition {
    Condition(field, op, value, negated, None)
  }

  /** What follows a field name. */
  function ParseTest(field: string, negated: bool, ts: Tokens): (r: Parsed<Condition>)
    ensures r.Ok? ==> |r.value.1| < |ts|
  {
    if Kind(ts) == TokenIs then
      var after := Next(ts);
      if Kind(after) == TokenNull then Ok((Leaf(field, OpIsNull, Null, negated), Next(after)))
      else if Kind(after) == TokenNot then
        if Kind(Next(after)) == TokenNull then Ok((Leaf(field, OpIsNotNull, Null, negated), Next(Next(after))))
        else Unexpected(Next(after), "NULL")
      else Unexpected(after, "NULL or NOT NULL")
    else if Kind(ts) == TokenBetween then
      var low :- ParseValue(Next(ts));
      if Kind(low.1) != TokenAnd then Unexpected(low.1, "AND") else
      var high :- ParseValue(Next(low.1));
      Ok((Leaf(field, OpBetween, Between(low.0, high.0), negated), high.1))
    else if SimpleOperator(Kind(ts)).None? then Unexpected(ts, "comparison operator")
    else
      var v :- ParseValue(Next(ts));
      Ok((Leaf(field, SimpleOperator(Kind(ts)).value, v.0, negated), v.1))
  }

  function ParseCondition(ts: Tokens, depth: nat): (r: Parsed<Condition>)
    ensures r.Ok? ==> |r.value.1| < |ts|
    decreases |ts|, 2
  {
    var negated := Kind(ts) == TokenNot;
    var body := if negated then Next(ts) else ts;
    if Kind(body) == TokenLParen then
      var group :- ParseGroup(body, depth);
      Ok((Condition("", OpEquals, Null, negated, Some(group.0)), group.1))
    else if !IdentifierOrKeyword(Kind(body)) then Unexpected(body, "field name")
    else ParseTest(Current(body).text, negated, Next(body))
  }

  /** A parenthesised group; the depth counts the groups around it. */
  function ParseGroup(ts: Tokens, depth: nat): (r: Parsed<WhereClause>)
    requires Kind(ts) == TokenLParen
    ensures r.Ok? ==> |r.value.1| < |ts|
    decreases |ts|, 1
  {
    if depth + 1 > MAX_DEPTH then Err(NestedGroupDepth(MAX_DEPTH)) else
    var nested :- ParseWhere(Next(ts), depth + 1);
    if Kind(nested.1) != TokenRParen then Unexpected(nested.1, ")")
    else Ok((nested.0, Next(nested.1)))
  }

  function ParseWhere(ts: Tokens, depth: nat): (r: Parsed<WhereClause>)
    ensures r.Ok? ==> |r.value.1| < |ts|
    decreases |ts|, 3
  {
    var first :- ParseCondition(ts, depth);
    WhereTail(WhereClause([first.0], LogicalAnd), first.1, depth)
  }

  /** Further conditions; one OR anywhere turns the whole clause into an OR. */
  function WhereTail(clause: WhereClause, ts: Tokens, depth: nat): (r: Parsed<WhereClause>)
    ensures r.Ok? ==> |r.value.1| <= |ts|
    decreases |ts|, 3
  {
    if Kind(ts) == TokenAnd then
      var c :- ParseCondition(Next(ts), depth);
      WhereTail(WhereClause(clause.conditions + [c.0], clause.operator), c.1, depth)
    else if Kind(ts) == TokenOr then
      var op := if clause.operator == LogicalAnd && |clause.conditions| > 0 then LogicalOr else clause.operator;
      var c :- ParseCondition(Next(ts), depth);
      WhereTail(WhereClause(clause.conditions + [c.0], op), c.1, depth)
    else Ok((clause, ts))
  }

  // ----- lists of names, orderings and updates -----

  /** A comma list of names; `first` tells whether one is still required. */
  function ParseIdents(ts: Tokens, first: bool): (r: Parsed<seq<string>>)
    ensures r.Ok? ==> |r.value.1| <= |ts|
    decreases |ts|, 0
  {
    if !IdentifierOrKeyword(Kind(ts)) then
      if first then Unexpected(ts, "identifier") else Ok(([], ts))
    else Prepend([Current(ts).text], IdentsAfter(Next(ts)))
  }

  function IdentsAfter(ts: Tokens): (r: Parsed<seq<string>>)
    ensures r.Ok? ==> |r.value.1| <= |ts|
    decreases |ts|, 1
  {
    if Kind(ts) == TokenComma then ParseIdents(Next(ts), false) else Ok(([], ts))
  }

  function ParseOrder(ts: Tokens): (r: (OrderClause, Tokens))
    requires Kind(ts) != TokenEOF
    ensures |r.1| < |ts|
  {
    var after := Next(ts);
    (OrderClause(Current(ts).text, if Kind(after) == TokenDesc then Descending else Ascending),
     if Kind(after) in {TokenAsc, TokenDesc} then Next(after) else after)
  }

  function ParseOrders(ts: Tokens, first: bool): (r: Parsed<seq<OrderClause>>)
    ensures r.Ok? ==> |r.value.1| <= |ts|
    decreases |ts|, 0
  {
    if !IdentifierOrKeyword(Kind(ts)) then
      if first then Unexpected(ts, "field name") else Ok(([], ts))
    else Prepend([ParseOrder(ts).0], OrdersAfter(ParseOrder(ts).1))
  }

  function OrdersAfter(ts: Tokens): (r: Parsed<seq<OrderClause>>)
    ensures r.Ok? ==> |r.value.1| <= |ts|
    decreases |ts|, 1
  {
    if Kind(ts) == TokenComma then ParseOrders(Next(ts), false) else Ok(([], ts))
  }

  function ParseUpdateSet(ts: Tokens): (r: Parsed<UpdateSet>)
    requires Kind(ts) != TokenEOF
    ensures r.Ok? ==> |r.value.1| < |ts|
  {
    if Kind(Next(ts)) != TokenEquals then Unexpected(Next(ts), "=") else
    var v :- ParseValue(Next(Next(ts)));
    Ok((UpdateSet(Current(ts).text, v.0, SetValue), v.1))
  }

  function ParseUpdates(ts: Tokens, first: bool): (r: Parsed<seq<UpdateSet>>)
    ensures r.Ok? ==> |r.value.1| <= |ts|
    decreases |ts|, 0
  {
    if !IdentifierOrKeyword(Kind(ts)) then
      if first then Unexpected(ts, "field name") else Ok(([], ts))
    else
      var u :- ParseUpdateSet(ts);
      Prepend([u.0], UpdatesAfter(u.1))
  }

  function UpdatesAfter(ts: Tokens): (r: Parsed<seq<UpdateSet>>)
    ensures r.Ok? ==> |r.value.1| <= |ts|
    decreases |ts|, 1
  {
    if Kind(ts) == TokenComma then ParseUpdates(Next(ts), false) else Ok(([], ts))
  }

  function ParseInt(ts: Tokens): (r: Parsed<int>)
    ensures r.Ok? ==> |r.value.1| < |ts|
  {
    if Kind(ts) != TokenNumber then Unexpected(ts, "integer") else
    match Decimal.ParseInt64(Current(ts).text)
    case None => Err(InvalidValue(Current(ts), "integer"))
    case Some(n) => Ok((n, Next(ts)))
  }

  // ----- clauses and statements -----

  function SkipBy(ts: Tokens): (r: Tokens)
    ensures |r| <= |ts|
  {
    if Kind(ts) == TokenBy then Next(ts) else ts
  }

  /** `rest` follows the keyword of the clause. */
  function ParseNames(q: Query, keyword: TokenType, rest: Tokens): (r: Parsed<Query>)
    ensures r.Ok? ==> |r.value.1| <= |rest|
  {
    var names :- ParseIdents(if keyword == TokenGroup then SkipBy(rest) else rest, true);
    Ok((if keyword in {TokenWith, TokenInclude} then q.(includes := names.0) else q.(groupBy := names.0), names.1))
  }

  function ParseFilter(q: Query, keyword: TokenType, rest: Tokens): (r: Parsed<Query>)
    ensures r.Ok? ==> |r.value.1| <= |rest|
  {
    var w :- ParseWhere(rest, 0);
    Ok((if keyword == TokenWhere then q.(where := Some(w.0)) else q.(having := Some(w.0)), w.1))
  }

  function ParseOrderBy(q: Query, rest: Tokens): (r: Parsed<Query>)
    ensures r.Ok? ==> |r.value.1| <= |rest|
  {
    var orders :- ParseOrders(SkipBy(rest), true);
    Ok((q.(orderBy := orders.0), orders.1))
  }

  function ParseBound(q: Query, keyword: TokenType, rest: Tokens): (r: Parsed<Query>)
    ensures r.Ok? ==> |r.value.1| <= |rest|
  {
    var n :- ParseInt(rest);
    Ok((if keyword == TokenLimit then q.(limit := Some(n.0)) else q.(offset := Some(n.0)), n.1))
  }

  /** One clause, starting at its keyword. */
  function ParseClause(q: Query, ts: Tokens): (r: Parsed<Query>)
    ensures r.Ok? ==> |r.value.1| < |ts|
  {
    var keyword := Kind(ts);
    if keyword in {TokenWith, TokenInclude, TokenGroup, TokenGroupBy} then ParseNames(q, keyword, Next(ts))
    else if keyword in {TokenWhere, TokenHaving} then ParseFilter(q, keyword, Next(ts))
    else if keyword == TokenOrder then ParseOrderBy(q, Next(ts))
    else if keyword in {TokenLimit, TokenOffset} then ParseBound(q, keyword, Next(ts))
    else Unexpected(ts, "clause keyword")
  }

  function ParseClauses(q: Query, ts: Tokens): Result<Query, ParseError>
    decreases |ts|
  {
    if Kind(ts) == TokenEOF then Ok(q) else
    var c :- ParseClause(q, ts);
    ParseClauses(c.0, c.1)
  }

  function SkipFrom(ts: Tokens): Tokens {
    if Kind(ts) == TokenFrom then Next(ts) else ts
  }

  function ParseEntity(q: Query, ts: Tokens): Parsed<Query> {
    if Kind(ts) != TokenIdent then Unexpected(ts, "entity name")
    else Ok((q.(entity := Current(ts).text), Next(ts)))
  }

  /** `ts` starts at the keyword that chose the statement. */
  function ParseSelect(ts: Tokens): Result<Query, ParseError> {
    var q, body := Blank(QuerySelect), Next(ts);
    var listed := Kind(body) == TokenIdent && Current(body).text != "*" && Peek(body).kind in {TokenComma, TokenFrom};
    var fields :- if listed then ParseIdents(body, true) else Ok(([], body));
    var named :- ParseEntity(q.(fields := fields.0), SkipFrom(fields.1));
    ParseClauses(named.0, named.1)
  }

  function ParseAggregateField(q: Query, ts: Tokens): Parsed<Query> {
    if q.kind == QueryCount || Kind(ts) != TokenLParen then Ok((q, ts))
    else if Kind(Next(ts)) != TokenIdent then Unexpected(Next(ts), "field name")
    else if Kind(Next(Next(ts))) != TokenRParen then Unexpected(Next(Next(ts)), ")")
    else Ok((q.(aggField := Current(Next(ts)).text), Next(Next(Next(ts)))))
  }

  function ParseAggregate(kind: QueryType, ts: Tokens): Result<Query, ParseError> {
    var field :- ParseAggregateField(Blank(kind), Next(ts));
    var named :- ParseEntity(field.0, SkipFrom(field.1));
    ParseClauses(named.0, named.1)
  }

  function ParseUpdate(ts: Tokens): Result<Query, ParseError> {
    var named :- ParseEntity(Blank(QueryUpdate), Next(ts));
    if Kind(named.1) != TokenSet then Unexpected(named.1, "SET") else
    var updates :- ParseUpdates(Next(named.1), true);
    ParseClauses(named.0.(updates := updates.0), updates.1)
  }

  function ParseDelete(ts: Tokens): Result<Query, ParseError> {
    var named :- ParseEntity(Blank(QueryDelete), SkipFrom(Next(ts)));
    ParseClauses(named.0, named.1)
  }

  // ----- simple filters: `status:active priority>1` -----

  function FilterOperator(kind: TokenType): Option<CompareOp> {
    match kind
    case TokenColon => Some(OpEquals)
    case TokenEquals => Some(OpEquals)
    case TokenNotEquals => Some(OpNotEquals)
    case TokenGreater => Some(OpGreaterThan)
    case TokenGreaterEq => Some(OpGreaterThanOrEqual)
    case TokenLess => Some(OpLessThan)
    case TokenLessEq => Some(OpLessThanOrEqual)
    case _ => None
  }

  /** A bare name loses a NOT in front of it. */
  function ParseSimpleFilter(ts: Tokens): (r: Parsed<Condition>)
    ensures r.Ok? ==> |r.value.1| < |ts|
  {
    if Kind(ts) == TokenString then Ok((Leaf("", OpExact, Str(Current(ts).text), false), Next(ts)))
    else if Kind(ts) == TokenTilde then
      var term := Next(ts);
      if !IdentifierOrKeyword(Kind(term)) && Kind(term) != TokenString then Unexpected(term, "search term")
      else Ok((Leaf("", OpFuzzy, Str(Current(term).text), false), Next(term)))
    else
      var negated := Kind(ts) == TokenNot;
      var body := if negated then Next(ts) else ts;
      if Kind(body) == TokenLParen then
        var group :- ParseGroup(body, 0);
        Ok((Condition("", OpEquals, Null, negated, Some(group.0)), group.1))
      else if !IdentifierOrKeyword(Kind(body)) then Unexpected(body, "filter expression")
      else
        var field := Current(body).text;
        match FilterOperator(Kind(Next(body)))
        case None => Ok((Leaf(field, OpEquals, Bool(true), false), Next(body)))
        case Some(op) =>
          var v :- ParseValue(Next(Next(body)));
          Ok((Leaf(field, op, v.0, negated), v.1))
  }

  function SimpleFilters(ts: Tokens): Result<seq<Condition>, ParseError>
    decreases |ts|
  {
    if Kind(ts) == TokenEOF then Ok([]) else
    var c :- ParseSimpleFilter(ts);
    var more :- SimpleFilters(c.1);
    Ok([c.0] + more)
  }

  /** Conditions read before filters that may still fail. */
  function After(cs: seq<Condition>, r: Result<seq<Condition>, ParseError>): Result<seq<Condition>, ParseError> {
    match r
    case Ok(more) => Ok(cs + more)
    case Err(e) => Err(e)
  }

  lemma AfterNone(r: Result<seq<Condition>, ParseError>)
    ensures After([], r) == r
  {
    if r.Ok? {
      assert [] + r.value == r.value;
    }
  }

  lemma AfterAll(cs: seq<Condition>)
    ensures After(cs, Ok([])) == Ok(cs)
  {
    assert cs + [] == cs;
  }

  lemma AfterTwice(cs: seq<Condition>, c: Condition, r: Result<seq<Condition>, ParseError>)
    ensures After(cs, After([c], r)) == After(cs + [c], r)
  {
    if r.Ok? {
      assert cs + ([c] + r.value) == cs + [c] + r.value;
    }
  }

  lemma FiltersStep(cs: seq<Condition>, ts: Tokens)
    requires Kind(ts) != TokenEOF
    ensures After(cs, SimpleFilters(ts)) ==
      match ParseSimpleFilter(ts)
      case Err(e) => Err(e)
      case Ok(c) => After(cs + [c.0], SimpleFilters(c.1))
  {
    if ParseSimpleFilter(ts).Ok? {
      var c := ParseSimpleFilter(ts).value;
      AfterTwice(cs, c.0, SimpleFilters(c.1));
    }
  }

  function ParseSimpleFilters(ts: Tokens): Result<Query, ParseError> {
    var conditions :- SimpleFilters(ts);
    Ok(if conditions == [] then Blank(QuerySelect)
       else Blank(QuerySelect).(where := Some(WhereClause(conditions, LogicalAnd))))
  }

  function ParseQuery(ts: Tokens): Result<Query, ParseError> {
    match Kind(ts)
    case TokenEOF => Err(UnexpectedEOF)
    case TokenSelect => ParseSelect(ts)
    case TokenCount => ParseAggregate(QueryCount, ts)
    case TokenSum => ParseAggregate(QuerySum, ts)
    case TokenAvg => ParseAggregate(QueryAvg, ts)
    case TokenMin => ParseAggregate(QueryMin, ts)
    case TokenMax => ParseAggregate(QueryMax, ts)
    case TokenUpdate => ParseUpdate(ts)
    case TokenDelete => ParseDelete(ts)
    case _ => ParseSimpleFilters(ts)
  }

  // ----- the parser object -----

  /** A method's result agrees with the function, and it left the tokens the function leaves. */
  ghost predicate Yields<T>(spec: Parsed<T>, r: Result<T, ParseError>, rest: Tokens) {
    match spec
    case Ok(p) => r == Ok(p.0) && rest == p.1
    case Err(e) => r == Err(e)
  }

  lemma PrependMore<T>(xs: seq<T>, ys: seq<T>, r: Parsed<seq<T>>)
    ensures Prepend(xs, Prepend(ys, r)) == Prepend(xs + ys, r)
    ensures Prepend([], r) == r
  {
    if r.Ok? {
      assert xs + (ys + r.value.0) == xs + ys + r.value.0;
      assert [] + r.value.0 == r.value.0;
    }
  }

  class Parser {
    const tokens: Tokens
    var pos: nat
    var current: Token
    var depth: nat

    function Rest(): Tokens
      reads this
    {
      if pos <= |tokens| then tokens[pos..] else []
    }

    predicate Valid()
      reads this
    {
      current == Current(Rest())
    }

    constructor (tokens: Tokens)
      ensures Valid() && this.tokens == tokens && Rest() == tokens && depth == 0
    {
      this.tokens := tokens;
      pos := 0;
      current := if |tokens| > 0 then tokens[0] else END;
      depth := 0;
    }

    method Advance()
      requires Valid()
      modifies this
      ensures Valid() && Rest() == Next(old(Rest())) && depth == old(depth)
    {
      pos := pos + 1;
      if pos < |tokens| {
        current := tokens[pos];
      } else {
        current := END;
      }
    }

    method ReadPeek() returns (t: Token)
      requires Valid()
      ensures t == Peek(Rest())
    {
      if pos + 1 < |tokens| {
        t := tokens[pos + 1];
      } else {
        t := END;
      }
    }

    method Value() returns (r: Result<Value, ParseError>)
      requires Valid()
      modifies this
      ensures Valid() && depth == old(depth) && Yields(ParseValue(old(Rest())), r, Rest())
      decreases |Rest()|, 1
    {
      if current.kind == TokenLBracket {
        var items := Items();
        if items.Err? {
          return Err(items.error);
        }
        return Ok(List(items.value));
      } else if current.kind == TokenIdent {
        var text := current.text;
        Advance();
        if current.kind == TokenComma {
          var more := Bare();
          return Ok(List([Str(text)] + more));
        }
        return Ok(Str(text));
      }
      r := Scalar();
    }

    method Scalar() returns (r: Result<Value, ParseError>)
      requires Valid()
      modifies this
      ensures Valid() && depth == old(depth) && Yields(ParseScalar(old(Rest())), r, Rest())
    {
      var text := current.text;
      match current.kind {
        case TokenString =>
          Advance();
          r := Ok(Str(text));
        case TokenNumber =>
          Advance();
          r := ParseNumber(text);
        case TokenTrue =>
          Advance();
          r := Ok(Bool(true));
        case TokenFalse =>
          Advance();
          r := Ok(Bool(false));
        case TokenNull =>
          Advance();
          r := Ok(Null);
        case TokenParam =>
          Advance();
          r := Ok(Param(text));
        case _ => r := Err(UnexpectedToken(current, "value"));
      }
    }

    method Bare() returns (values: seq<Value>)
      requires Valid()
      modifies this
      ensures Valid() && depth == old(depth) && (values, Rest()) == BareItems(old(Rest()))
    {
      values := [];
      ghost var all := BareItems(Rest());
      assert [] + all.0 == all.0;
      while current.kind == TokenComma
        invariant Valid() && depth == old(depth)
        invariant all == (values + BareItems(Rest()).0, BareItems(Rest()).1)
        decreases |Rest()|
      {
        Advance();
        if current.kind !in {TokenIdent, TokenString, TokenNumber} {
          assert values + [] == values;
          return;
        }
        ghost var rest, sofar := Rest(), values;
        values := values + [Str(current.text)];
        Advance();
        ghost var more := BareItems(Rest()).0;
        assert sofar + ([Str(Current(rest).text)] + more) == values + more;
      }
      assert values + [] == values;
    }

    method Items() returns (r: Result<seq<Value>, ParseError>)
      requires Valid() && current.kind == TokenLBracket
      modifies this
      ensures Valid() && depth == old(depth) && Yields(ParseItems(Next(old(Rest()))), r, Rest())
      decreases |Rest()|, 0
    {
      Advance();
      ghost var all := ParseItems(Rest());
      var values: seq<Value> := [];
      PrependMore([], [], all);
      while current.kind != TokenRBracket && current.kind != TokenEOF
        invariant Valid() && depth == old(depth) && |Rest()| < |old(Rest())|
        invariant all == Prepend(values, ParseItems(Rest()))
        decreases |Rest()|
      {
        var v := Value();
        if v.Err? {
          return Err(v.error);
        }
        PrependMore(values, [v.value], ItemsAfter(Rest()));
        values := values + [v.value];
        if current.kind == TokenComma {
          Advance();
        } else if current.kind != TokenRBracket {
          return Err(UnexpectedToken(current, ", or ]"));
        }
      }
      if current.kind != TokenRBracket {
        return Err(UnexpectedToken(current, "]"));
      }
      Advance();
      assert values + [] == values;
      r := Ok(values);
    }

    method Test(field: string, negated: bool) returns (r: Result<Condition, ParseError>)
      requires Valid()
      modifies this
      ensures Valid() && depth == old(depth) && Yields(ParseTest(field, negated, old(Rest())), r, Rest())
    {
      if current.kind == TokenIs {
        Advance();
        if current.kind == TokenNull {
          Advance();
          return Ok(Leaf(field, OpIsNull, Null, negated));
        } else if current.kind == TokenNot {
          Advance();
          if current.kind != TokenNull {
            return Err(UnexpectedToken(current, "NULL"));
          }
          Advance();
          return Ok(Leaf(field, OpIsNotNull, Null, negated));
        }
        return Err(UnexpectedToken(current, "NULL or NOT NULL"));
      } else if current.kind == TokenBetween {
        Advance();
        var low := Value();
        if low.Err? {
          return Err(low.error);
        }
        if current.kind != TokenAnd {
          return Err(UnexpectedToken(current, "AND"));
        }
        Advance();
        var high := Value();
        if high.Err? {
          return Err(high.error);
        }
        return Ok(Leaf(field, OpBetween, Between(low.value, high.value), negated));
      }
      var op := SimpleOperator(current.kind);
      if op.None? {
        return Err(UnexpectedToken(current, "comparison operator"));
      }
      Advance();
      var v := Value();
      if v.Err? {
        return Err(v.error);
      }
      r := Ok(Leaf(field, op.value, v.value, negated));
    }

    /** The group shared by conditions and simple filters; `depth` comes back unless it fails. */
    method Group() returns (r: Result<WhereClause, ParseError>)
      requires Valid() && current.kind == TokenLParen
      modifies this
      ensures Valid() && Yields(ParseGroup(old(Rest()), old(depth)), r, Rest())
      ensures r.Ok? ==> depth == old(depth)
      decreases |Rest()|, 1
    {
      depth := depth + 1;
      assert Rest() == old(Rest());
      if depth > MAX_DEPTH {
        return Err(NestedGroupDepth(MAX_DEPTH));
      }
      Advance();
      ghost var spec := ParseWhere(Next(old(Rest())), old(depth) + 1);
      var where := WhereExpr();
      assert Yields(spec, where, Rest());
      if where.Err? {
        return where;
      }
      if current.kind != TokenRParen {
        return Err(UnexpectedToken(current, ")"));
      }
      Advance();
      depth := depth - 1;
      r := where;
    }

    method OneCondition() returns (r: Result<Condition, ParseError>)
      requires Valid()
      modifies this
      ensures Valid() && Yields(ParseCondition(old(Rest()), old(depth)), r, Rest())
      ensures r.Ok? ==> depth == old(depth)
      decreases |Rest()|, 2
    {
      var negated := false;
      if current.kind == TokenNot {
        negated := true;
        Advance();
      }
      if current.kind == TokenLParen {
        var nested := Group();
        if nested.Err? {
          return Err(nested.error);
        }
        return Ok(Condition("", OpEquals, Null, negated, Some(nested.value)));
      }
      if !IdentifierOrKeyword(current.kind) {
        return Err(UnexpectedToken(current, "field name"));
      }
      var field := current.text;
      Advance();
      r := Test(field, negated);
    }

    method WhereExpr() returns (r: Result<WhereClause, ParseError>)
      requires Valid()
      modifies this
      ensures Valid() && Yields(ParseWhere(old(Rest()), old(depth)), r, Rest())
      ensures r.Ok? ==> depth == old(depth)
      decreases |Rest()|, 3
    {
      var first := OneCondition();
      if first.Err? {
        return Err(first.error);
      }
      var clause := WhereClause([first.value], LogicalAnd);
      while current.kind == TokenAnd || current.kind == TokenOr
        invariant Valid() && depth == old(depth) && |Rest()| < |old(Rest())|
        invariant ParseWhere(old(Rest()), old(depth)) == WhereTail(clause, Rest(), depth)
        decreases |Rest()|
      {
        if current.kind == TokenOr {
          if clause.operator == LogicalAnd && |clause.conditions| > 0 {
            clause := clause.(operator := LogicalOr);
          }
        }
        Advance();
        var c := OneCondition();
        if c.Err? {
          return Err(c.error);
        }
        clause := clause.(conditions := clause.conditions + [c.value]);
      }
      r := Ok(clause);
    }

    method IdentList() returns (r: Result<seq<string>, ParseError>)
      requires Valid()
      modifies this
      ensures Valid() && depth == old(depth) && Yields(ParseIdents(old(Rest()), true), r, Rest())
    {
      var idents: seq<string> := [];
      PrependMore([], [], ParseIdents(Rest(), true));
      while true
        invariant Valid() && depth == old(depth)
        invariant ParseIdents(old(Rest()), true) == Prepend(idents, ParseIdents(Rest(), |idents| == 0))
        decreases |Rest()|
      {
        if !IdentifierOrKeyword(current.kind) {
          if |idents| == 0 {
            return Err(UnexpectedToken(current, "identifier"));
          }
          break;
        }
        var name := current.text;
        PrependMore(idents, [name], IdentsAfter(Next(Rest())));
        idents := idents + [name];
        Advance();
        if current.kind == TokenComma {
          Advance();
        } else {
          break;
        }
      }
      assert idents + [] == idents;
      r := Ok(idents);
    }

    method Order() returns (order: OrderClause)
      requires Valid() && current.kind != TokenEOF
      modifies this
      ensures Valid() && depth == old(depth) && (order, Rest()) == ParseOrder(old(Rest()))
    {
      order := OrderClause(current.text, Ascending);
      Advance();
      if current.kind == TokenAsc {
        Advance();
      } else if current.kind == TokenDesc {
        order := order.(direction := Descending);
        Advance();
      }
    }

    method OrderList() returns (r: Result<seq<OrderClause>, ParseError>)
      requires Valid()
      modifies this
      ensures Valid() && depth == old(depth) && Yields(ParseOrders(old(Rest()), true), r, Rest())
    {
      var orders: seq<OrderClause> := [];
      PrependMore([], [], ParseOrders(Rest(), true));
      while true
        invariant Valid() && depth == old(depth)
        invariant ParseOrders(old(Rest()), true) == Prepend(orders, ParseOrders(Rest(), |orders| == 0))
        decreases |Rest()|
      {
        if !IdentifierOrKeyword(current.kind) {
          if |orders| == 0 {
            return Err(UnexpectedToken(current, "field name"));
          }
          break;
        }
        var order := Order();
        PrependMore(orders, [order], OrdersAfter(Rest()));
        orders := orders + [order];
        if current.kind == TokenComma {
          Advance();
        } else {
          break;
        }
      }
      assert orders + [] == orders;
      r := Ok(orders);
    }

    method OneUpdate() returns (r: Result<UpdateSet, ParseError>)
      requires Valid() && current.kind != TokenEOF
      modifies this
      ensures Valid() && depth == old(depth) && Yields(ParseUpdateSet(old(Rest())), r, Rest())
    {
      var field := current.text;
      Advance();
      if current.kind != TokenEquals {
        return Err(UnexpectedToken(current, "="));
      }
      Advance();
      var v := Value();
      if v.Err? {
        return Err(v.error);
      }
      r := Ok(UpdateSet(field, v.value, SetValue));
    }

    method UpdateSets() returns (r: Result<seq<UpdateSet>, ParseError>)
      requires Valid()
      modifies this
      ensures Valid() && depth == old(depth) && Yields(ParseUpdates(old(Rest()), true), r, Rest())
    {
      var updates: seq<UpdateSet> := [];
      PrependMore([], [], ParseUpdates(Rest(), true));
      while true
        invariant Valid() && depth == old(depth)
        invariant ParseUpdates(old(Rest()), true) == Prepend(updates, ParseUpdates(Rest(), |updates| == 0))
        decreases |Rest()|
      {
        if !IdentifierOrKeyword(current.kind) {
          if |updates| == 0 {
            return Err(UnexpectedToken(current, "field name"));
          }
          break;
        }
        var update := OneUpdate();
        if update.Err? {
          return Err(update.error);
        }
        PrependMore(updates, [update.value], UpdatesAfter(Rest()));
        updates := updates + [update.value];
        if current.kind == TokenComma {
          Advance();
        } else {
          break;
        }
      }
      assert updates + [] == updates;
      r := Ok(updates);
    }

    method Int() returns (r: Result<int, ParseError>)
      requires Valid()
      modifies this
      ensures Valid() && depth == old(depth) && Yields(ParseInt(old(Rest())), r, Rest())
    {
      if current.kind != TokenNumber {
        return Err(UnexpectedToken(current, "integer"));
      }
      var n := Decimal.ParseInt64(current.text);
      if n.None? {
        return Err(InvalidValue(current, "integer"));
      }
      Advance();
      r := Ok(n.value);
    }

    method NamesClause(q: Query, keyword: TokenType) returns (r: Result<Query, ParseError>)
      requires Valid() && depth == 0
      modifies this
      ensures Valid() && depth == 0 && Yields(ParseNames(q, keyword, old(Rest())), r, Rest())
    {
      if keyword == TokenGroup && current.kind == TokenBy {
        Advance();
      }
      var names := IdentList();
      if names.Err? {
        return Err(names.error);
      }
      r := Ok(if keyword in {TokenWith, TokenInclude} then q.(includes := names.value) else q.(groupBy := names.value));
    }

    method ConditionClause(q: Query, keyword: TokenType) returns (r: Result<Query, ParseError>)
      requires Valid() && depth == 0
      modifies this
      ensures Valid() && Yields(ParseFilter(q, keyword, old(Rest())), r, Rest())
      ensures r.Ok? ==> depth == 0
    {
      var where := WhereExpr();
      if where.Err? {
        return Err(where.error);
      }
      r := Ok(if keyword == TokenWhere then q.(where := Some(where.value)) else q.(having := Some(where.value)));
    }

    method OrderByClause(q: Query) returns (r: Result<Query, ParseError>)
      requires Valid() && depth == 0
      modifies this
      ensures Valid() && depth == 0 && Yields(ParseOrderBy(q, old(Rest())), r, Rest())
    {
      if current.kind == TokenBy {
        Advance();
      }
      var orders := OrderList();
      if orders.Err? {
        return Err(orders.error);
      }
      r := Ok(q.(orderBy := orders.value));
    }

    method BoundClause(q: Query, keyword: TokenType) returns (r: Result<Query, ParseError>)
      requires Valid() && depth == 0
      modifies this
      ensures Valid() && depth == 0 && Yields(ParseBound(q, keyword, old(Rest())), r, Rest())
    {
      var n := Int();
      if n.Err? {
        return Err(n.error);
      }
      r := Ok(if keyword == TokenLimit then q.(limit := Some(n.value)) else q.(offset := Some(n.value)));
    }

    method OneClause(q: Query) returns (r: Result<Query, ParseError>)
      requires Valid() && depth == 0
      modifies this
      ensures Valid() && Yields(ParseClause(q, old(Rest())), r, Rest())
      ensures r.Ok? ==> depth == 0
    {
      var keyword := current.kind;
      if keyword in {TokenWith, TokenInclude, TokenGroup, TokenGroupBy} {
        Advance();
        r := NamesClause(q, keyword);
      } else if keyword in {TokenWhere, TokenHaving} {
        Advance();
        r := ConditionClause(q, keyword);
      } else if keyword == TokenOrder {
        Advance();
        r := OrderByClause(q);
      } else if keyword in {TokenLimit, TokenOffset} {
        Advance();
        r := BoundClause(q, keyword);
      } else {
        r := Err(UnexpectedToken(current, "clause keyword"));
      }
    }

    method Clauses(q0: Query) returns (r: Result<Query, ParseError>)
      requires Valid() && depth == 0
      modifies this
      ensures Valid() && r == ParseClauses(q0, old(Rest()))
    {
      var q := q0;
      while current.kind != TokenEOF
        invariant Valid() && depth == 0
        invariant ParseClauses(q0, old(Rest())) == ParseClauses(q, Rest())
        decreases |Rest()|
      {
        var c := OneClause(q);
        if c.Err? {
          return c;
        }
        q := c.value;
      }
      r := Ok(q);
    }

    /** The entity name and the clauses after it, shared by every statement. */
    method Entity(q: Query) returns (r: Result<Query, ParseError>)
      requires Valid()
      modifies this
      ensures Valid() && depth == old(depth) && Yields(ParseEntity(q, old(Rest())), r, Rest())
    {
      if current.kind != TokenIdent {
        return Err(UnexpectedToken(current, "entity name"));
      }
      r := Ok(q.(entity := current.text));
      Advance();
    }

    method From()
      requires Valid()
      modifies this
      ensures Valid() && depth == old(depth) && Rest() == SkipFrom(old(Rest()))
    {
      if current.kind == TokenFrom {
        Advance();
      }
    }

    method Select() returns (r: Result<Query, ParseError>)
      requires Valid() && depth == 0
      modifies this
      ensures Valid() && r == ParseSelect(old(Rest()))
    {
      var q := Blank(QuerySelect);
      Advance();
      if current.kind == TokenIdent && current.text != "*" {
        var peek := ReadPeek();
        if peek.kind in {TokenComma, TokenFrom} {
          var fields := IdentList();
          if fields.Err? {
            return Err(fields.error);
          }
          q := q.(fields := fields.value);
        }
      }
      From();
      var named := Entity(q);
      if named.Err? {
        return named;
      }
      r := Clauses(named.value);
    }

    method Aggregate(kind: QueryType) returns (r: Result<Query, ParseError>)
      requires Valid() && depth == 0
      modifies this
      ensures Valid() && r == ParseAggregate(kind, old(Rest()))
    {
      Advance();
      var field := AggregateField(Blank(kind));
      if field.Err? {
        return field;
      }
      From();
      var named := Entity(field.value);
      if named.Err? {
        return named;
      }
      r := Clauses(named.value);
    }

    method AggregateField(q: Query) returns (r: Result<Query, ParseError>)
      requires Valid()
      modifies this
      ensures Valid() && depth == old(depth) && Yields(ParseAggregateField(q, old(Rest())), r, Rest())
    {
      r := Ok(q);
      if q.kind != QueryCount && current.kind == TokenLParen {
        Advance();
        if current.kind != TokenIdent {
          return Err(UnexpectedToken(current, "field name"));
        }
        r := Ok(q.(aggField := current.text));
        Advance();
        if current.kind != TokenRParen {
          return Err(UnexpectedToken(current, ")"));
        }
        Advance();
      }
    }

    method Update() returns (r: Result<Query, ParseError>)
      requires Valid() && depth == 0
      modifies this
      ensures Valid() && r == ParseUpdate(old(Rest()))
    {
      Advance();
      var named := Entity(Blank(QueryUpdate));
      if named.Err? {
        return named;
      }
      if current.kind != TokenSet {
        return Err(UnexpectedToken(current, "SET"));
      }
      Advance();
      var updates := UpdateSets();
      if updates.Err? {
        return Err(updates.error);
      }
      r := Clauses(named.value.(updates := updates.value));
    }

    method Delete() returns (r: Result<Query, ParseError>)
      requires Valid() && depth == 0
      modifies this
      ensures Valid() && r == ParseDelete(old(Rest()))
    {
      Advance();
      From();
      var named := Entity(Blank(QueryDelete));
      if named.Err? {
        return named;
      }
      r := Clauses(named.value);
    }

    method SimpleFilter() returns (r: Result<Condition, ParseError>)
      requires Valid() && depth == 0
      modifies this
      ensures Valid() && Yields(ParseSimpleFilter(old(Rest())), r, Rest())
      ensures r.Ok? ==> depth == 0
    {
      if current.kind == TokenString {
        r := Ok(Leaf("", OpExact, Str(current.text), false));
        Advance();
        return;
      }
      if current.kind == TokenTilde {
        Advance();
        if !IdentifierOrKeyword(current.kind) && current.kind != TokenString {
          return Err(UnexpectedToken(current, "search term"));
        }
        r := Ok(Leaf("", OpFuzzy, Str(current.text), false));
        Advance();
        return;
      }
      var negated := false;
      if current.kind == TokenNot {
        negated := true;
        Advance();
      }
      if current.kind == TokenLParen {
        var nested := Group();
        if nested.Err? {
          return Err(nested.error);
        }
        return Ok(Condition("", OpEquals, Null, negated, Some(nested.value)));
      }
      if !IdentifierOrKeyword(current.kind) {
        return Err(UnexpectedToken(current, "filter expression"));
      }
      var field := current.text;
      Advance();
      var op := FilterOperator(current.kind);
      if op.None? {
        return Ok(Leaf(field, OpEquals, Bool(true), false));
      }
      Advance();
      var v := Value();
      if v.Err? {
        return Err(v.error);
      }
      r := Ok(Leaf(field, op.value, v.value, negated));
    }

    method Filters() returns (r: Result<Query, ParseError>)
      requires Valid() && depth == 0
      modifies this
      ensures Valid() && r == ParseSimpleFilters(old(Rest()))
    {
      var conditions: seq<Condition> := [];
      ghost var all := SimpleFilters(Rest());
      AfterNone(all);
      while current.kind != TokenEOF
        invariant Valid() && depth == 0
        invariant all == After(conditions, SimpleFilters(Rest()))
        decreases |Rest()|
      {
        FiltersStep(conditions, Rest());
        var c := SimpleFilter();
        if c.Err? {
          return Err(c.error);
        }
        conditions := conditions + [c.value];
      }
      AfterAll(conditions);
      var q := Blank(QuerySelect);
      if |conditions| > 0 {
        q := q.(where := Some(WhereClause(conditions, LogicalAnd)));
      }
      r := Ok(q);
    }

    method Parse() returns (r: Result<Query, ParseError>)
      requires Valid() && depth == 0
      modifies this
      ensures r == ParseQuery(old(Rest()))
    {
      if |tokens| == 0 || current.kind == TokenEOF {
        return Err(UnexpectedEOF);
      }
      if current.kind == TokenSelect {
        r := Select();
      } else if current.kind == TokenCount {
        r := Aggregate(QueryCount);
      } else if current.kind == TokenSum {
        r := Aggregate(QuerySum);
      } else if current.kind == TokenAvg {
        r := Aggregate(QueryAvg);
      } else if current.kind == TokenMin {
        r := Aggregate(QueryMin);
      } else if current.kind == TokenMax {
        r := Aggregate(QueryMax);
      } else if current.kind == TokenUpdate {
        r := Update();
      } else if current.kind == TokenDelete {
        r := Delete();
      } else {
        r := Filters();
      }
    }
  }
}
