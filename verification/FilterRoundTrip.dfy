/** Simple filters written as tokens, and as text, and parsed back. */
module FilterRoundTrip {
  import opened Results
  import opened QueryAst
  import opened QueryTokens
  import opened QueryParser
  import opened ParserRoundTrip
  import opened LexerRoundTrip
  import opened QueryText

  /** The signs between a field and its value. */
  datatype Sign = Colon | Equal | NotEqual | Above | AtLeast | Below | AtMost

  /** A value as the parser's values are written, or a bare word with others, strings and numbers after
      commas, all of them texts. */
  datatype Operand = Value(v: QueryAst.Value) | Words(first: string, more: Tokens)

  datatype Filter =
    | Phrase(text: string)
    | Fuzzy(term: string, quoted: bool)
    | Flag(name: string)
    | Test(field: string, sign: Sign, operand: Operand, negated: bool)
    | Nested(clause: WhereClause, negated: bool)

  // ----- what they mean -----

  function SignOperator(sign: Sign): CompareOp {
    match sign
    case Colon => OpEquals
    case Equal => OpEquals
    case NotEqual => OpNotEquals
    case Above => OpGreaterThan
    case AtLeast => OpGreaterThanOrEqual
    case Below => OpLessThan
    case AtMost => OpLessThanOrEqual
  }

  function Texts(words: Tokens): (vs: seq<QueryAst.Value>)
    ensures |vs| == |words|
  {
    seq(|words|, i requires 0 <= i < |words| => Str(words[i].text))
  }

  function OperandValue(o: Operand): QueryAst.Value {
    match o
    case Value(v) => v
    case Words(first, more) => if more == [] then Str(first) else List([Str(first)] + Texts(more))
  }

  function FilterCondition(f: Filter): Condition {
    match f
    case Phrase(text) => Condition("", OpExact, Str(text), false, None)
    case Fuzzy(term, _) => Condition("", OpFuzzy, Str(term), false, None)
    case Flag(name) => Condition(name, OpEquals, Bool(true), false, None)
    case Test(field, sign, operand, negated) =>
      Condition(field, SignOperator(sign), OperandValue(operand), negated, None)
    case Nested(clause, negated) => Condition("", OpEquals, Null, negated, Some(clause))
  }

  function Conditions(fs: seq<Filter>): (cs: seq<Condition>)
    ensures |cs| == |fs|
  {
    seq(|fs|, i requires 0 <= i < |fs| => FilterCondition(fs[i]))
  }

  /** All filters are required. */
  function FilterQuery(fs: seq<Filter>): Query {
    Blank(QuerySelect).(where := Some(WhereClause(Conditions(fs), LogicalAnd)))
  }

  // ----- how they are written -----

  function SignWord(sign: Sign): Token {
    match sign
    case Colon => Token(TokenColon, ":")
    case Equal => Token(TokenEquals, "=")
    case NotEqual => Token(TokenNotEquals, "!=")
    case Above => Token(TokenGreater, ">")
    case AtLeast => Token(TokenGreaterEq, ">=")
    case Below => Token(TokenLess, "<")
    case AtMost => Token(TokenLessEq, "<=")
  }

  function RenderWords(more: Tokens): Tokens {
    if more == [] then [] else [Word(TokenComma), more[0]] + RenderWords(more[1..])
  }

  predicate AreTexts(words: Tokens) {
    forall i :: 0 <= i < |words| ==> words[i].kind in {TokenIdent, TokenString, TokenNumber}
  }

  function RenderOperand(o: Operand): Tokens {
    match o
    case Value(v) => RenderValue(v)
    case Words(first, more) => [Name(first)] + RenderWords(more)
  }

  function RenderFilter(f: Filter): Tokens {
    match f
    case Phrase(text) => [Token(TokenString, text)]
    case Fuzzy(term, quoted) => [Word(TokenTilde), if quoted then Token(TokenString, term) else FieldWord(term)]
    case Flag(name) => [FieldWord(name)]
    case Test(field, sign, operand, negated) =>
      RenderNot(negated) + ([FieldWord(field)] + ([SignWord(sign)] + RenderOperand(operand)))
    case Nested(_, _) => RenderCondition(FilterCondition(f))
  }

  function RenderFilters(fs: seq<Filter>): Tokens {
    if fs == [] then [] else RenderFilter(fs[0]) + RenderFilters(fs[1..])
  }

  /** Values and groups the language can spell; a name after no NOT is not `not` itself. */
  predicate WritableFilter(f: Filter) {
    match f
    case Phrase(_) => true
    case Fuzzy(_, _) => true
    case Flag(name) => FieldWord(name).kind != TokenNot
    case Test(field, _, operand, negated) =>
      (if operand.Value? then Writable(operand.v) else AreTexts(operand.more))
        && (!negated ==> FieldWord(field).kind != TokenNot)
    case Nested(clause, _) => WritableClause(clause)
  }

  function FilterNesting(f: Filter): nat {
    if f.Nested? then 1 + ClauseNesting(f.clause) else 0
  }

  predicate AllWritableFilters(fs: seq<Filter>) {
    forall i :: 0 <= i < |fs| ==> WritableFilter(fs[i])
  }

  predicate Shallow(fs: seq<Filter>) {
    forall i :: 0 <= i < |fs| ==> FilterNesting(fs[i]) <= 10
  }

  /** Tokens that no operator, comma or connective precedes: those another filter starts with, or the end. */
  predicate StartsFilter(rest: Tokens) {
    FilterOperator(Kind(rest)).None? && Kind(rest) != TokenComma
  }

  // ----- one filter -----

  lemma SignReads(sign: Sign)
    ensures FilterOperator(SignWord(sign).kind) == Some(SignOperator(sign))
  {
  }

  lemma {:induction false} WordsRead(more: Tokens, rest: Tokens)
    requires AreTexts(more) && Kind(rest) != TokenComma
    ensures BareItems(RenderWords(more) + rest) == (Texts(more), rest)
    ensures more != [] ==> Kind(RenderWords(more) + rest) == TokenComma
    decreases |more|
  {
    if more == [] {
      assert [] + rest == rest;
    } else {
      WordsRead(more[1..], rest);
      WordsText(more[0], RenderWords(more[1..]), rest);
      assert Texts(more) == [Str(more[0].text)] + Texts(more[1..]);
      WordsStep(more[0], RenderWords(more[1..]) + rest, Texts(more[1..]), rest);
    }
  }

  lemma WordsText(word: Token, more: Tokens, rest: Tokens)
    ensures [Word(TokenComma), word] + more + rest == [Word(TokenComma)] + ([word] + (more + rest))
  {
  }

  lemma WordsStep(word: Token, tail: Tokens, vs: seq<QueryAst.Value>, rest: Tokens)
    requires BareItems(tail) == (vs, rest) && word.kind in {TokenIdent, TokenString, TokenNumber}
    ensures var ts := [Word(TokenComma)] + ([word] + tail);
      Kind(ts) == TokenComma && BareItems(ts) == ([Str(word.text)] + vs, rest)
  {
    AfterOne(Word(TokenComma), [word] + tail);
    AfterOne(word, tail);
  }

  lemma OperandReads(o: Operand, rest: Tokens)
    requires (if o.Value? then Writable(o.v) else AreTexts(o.more)) && Kind(rest) != TokenComma
    ensures ParseValue(RenderOperand(o) + rest) == Ok((OperandValue(o), rest))
  {
    if o.Value? {
      ValueParses(o.v, rest);
    } else {
      WordsRead(o.more, rest);
      Grouping([Name(o.first)], RenderWords(o.more), rest);
      NoMore(o.more, rest);
      BareReads(o.first, RenderWords(o.more) + rest, Texts(o.more), rest);
    }
  }

  lemma NoMore(more: Tokens, rest: Tokens)
    ensures more == [] <==> Texts(more) == []
    ensures more == [] ==> RenderWords(more) + rest == rest
  {
  }

  lemma BareReads(first: string, tail: Tokens, vs: seq<QueryAst.Value>, rest: Tokens)
    requires BareItems(tail) == (vs, rest) && (vs != [] ==> Kind(tail) == TokenComma)
    requires vs == [] ==> tail == rest && Kind(rest) != TokenComma
    ensures ParseValue([Name(first)] + tail)
         == Ok((if vs == [] then Str(first) else List([Str(first)] + vs), rest))
  {
    AfterOne(Name(first), tail);
  }

  lemma PhraseReads(text: string, rest: Tokens)
    ensures ParseSimpleFilter([Token(TokenString, text)] + rest) == Ok((FilterCondition(Phrase(text)), rest))
  {
    AfterOne(Token(TokenString, text), rest);
  }

  lemma FuzzyReads(term: string, quoted: bool, rest: Tokens)
    ensures ParseSimpleFilter(RenderFilter(Fuzzy(term, quoted)) + rest)
         == Ok((FilterCondition(Fuzzy(term, quoted)), rest))
  {
    var word := if quoted then Token(TokenString, term) else FieldWord(term);
    FieldWordNames(term);
    AfterTwo(Word(TokenTilde), word, rest);
  }

  lemma FlagReads(name: string, rest: Tokens)
    requires FieldWord(name).kind != TokenNot && FilterOperator(Kind(rest)).None?
    ensures ParseSimpleFilter([FieldWord(name)] + rest) == Ok((FilterCondition(Flag(name)), rest))
  {
    FieldWordNames(name);
    AfterOne(FieldWord(name), rest);
  }

  lemma FilterOfGroup(negated: bool, ts: Tokens, body: Tokens)
    requires (Kind(ts) == TokenNot) == negated && body == (if negated then Next(ts) else ts)
    requires Kind(body) == TokenLParen
    ensures ParseSimpleFilter(ts) ==
      match ParseGroup(body, 0)
      case Err(e) => Err(e)
      case Ok(g) => Ok((Condition("", OpEquals, Null, negated, Some(g.0)), g.1))
  {
  }

  lemma NameIsNoTerm(kind: TokenType)
    requires IdentifierOrKeyword(kind)
    ensures kind !in {TokenString, TokenTilde, TokenLParen}
  {
  }

  /** A field, a sign and a value, each where the one before it ends. */
  lemma TestOf(negated: bool, ts: Tokens, body: Tokens, op: CompareOp, v: QueryAst.Value, rest: Tokens)
    requires (Kind(ts) == TokenNot) == negated && body == (if negated then Next(ts) else ts)
    requires IdentifierOrKeyword(Kind(body)) && FilterOperator(Kind(Next(body))) == Some(op)
    requires ParseValue(Next(Next(body))) == Ok((v, rest))
    ensures ParseSimpleFilter(ts) == Ok((Leaf(Current(body).text, op, v, negated), rest))
  {
    NameIsNoTerm(Kind(body));
  }

  lemma TestStep(field: Token, negated: bool, sign: Sign, value: Tokens, v: QueryAst.Value, rest: Tokens)
    requires IdentifierOrKeyword(field.kind) && (!negated ==> field.kind != TokenNot)
    requires ParseValue(value) == Ok((v, rest))
    ensures ParseSimpleFilter(RenderNot(negated) + ([field] + ([SignWord(sign)] + value)))
         == Ok((Leaf(field.text, SignOperator(sign), v, negated), rest))
  {
    var body := [field] + ([SignWord(sign)] + value);
    AfterOne(field, [SignWord(sign)] + value);
    AfterOne(SignWord(sign), value);
    NegationParses(negated, body);
    SignReads(sign);
    TestOf(negated, RenderNot(negated) + body, body, SignOperator(sign), v, rest);
  }

  lemma TestReads(f: Filter, rest: Tokens)
    requires f.Test? && WritableFilter(f) && Kind(rest) != TokenComma
    ensures ParseSimpleFilter(RenderFilter(f) + rest) == Ok((FilterCondition(f), rest))
  {
    var value := RenderOperand(f.operand) + rest;
    FieldWordNames(f.field);
    OperandReads(f.operand, rest);
    TestStep(FieldWord(f.field), f.negated, f.sign, value, OperandValue(f.operand), rest);
    TestText(f, rest);
  }

  lemma TestText(f: Filter, rest: Tokens)
    requires f.Test?
    ensures RenderFilter(f) + rest
         == RenderNot(f.negated) + ([FieldWord(f.field)] + ([SignWord(f.sign)] + (RenderOperand(f.operand) + rest)))
  {
  }

  /** A group is the same as a filter and as a condition. */
  lemma GroupIsCondition(negated: bool, body: Tokens)
    requires Kind(body) == TokenLParen
    ensures ParseSimpleFilter(RenderNot(negated) + body) == ParseCondition(RenderNot(negated) + body, 0)
  {
    NegationParses(negated, body);
    ConditionOfGroup(negated, body, 0);
    FilterOfGroup(negated, RenderNot(negated) + body, body);
  }

  lemma NestedStarts(f: Filter, rest: Tokens) returns (body: Tokens)
    requires f.Nested?
    ensures RenderFilter(f) + rest == RenderNot(f.negated) + body && Kind(body) == TokenLParen
  {
    var inner := RenderClause(f.clause) + ([Word(TokenRParen)] + rest);
    GroupText(FilterCondition(f), rest);
    AfterOne(Word(TokenLParen), inner);
    body := [Word(TokenLParen)] + inner;
  }

  lemma NestedKind(f: Filter, rest: Tokens)
    requires f.Nested?
    ensures Kind(RenderFilter(f) + rest) == if f.negated then TokenNot else TokenLParen
  {
    var body := NestedStarts(f, rest);
    NegationParses(f.negated, body);
  }

  lemma FirstFails(ts: Tokens)
    requires Kind(ts) != TokenEOF && ParseSimpleFilter(ts).Err?
    ensures ParseSimpleFilters(ts) == Err(ParseSimpleFilter(ts).error)
  {
  }

  lemma NestedReads(f: Filter, rest: Tokens)
    requires f.Nested? && WritableFilter(f)
    ensures ParseSimpleFilter(RenderFilter(f) + rest) == Limited(FilterNesting(f), 0, FilterCondition(f), rest)
  {
    var body := NestedStarts(f, rest);
    GroupIsCondition(f.negated, body);
    ConditionParses(FilterCondition(f), rest, 0);
  }

  /** A written filter is read as its condition, with the comparison of its sign. */
  lemma FilterReads(f: Filter, rest: Tokens)
    requires WritableFilter(f) && StartsFilter(rest)
    ensures ParseSimpleFilter(RenderFilter(f) + rest) == Limited(FilterNesting(f), 0, FilterCondition(f), rest)
  {
    match f {
      case Phrase(text) => PhraseReads(text, rest);
      case Fuzzy(term, quoted) => FuzzyReads(term, quoted, rest);
      case Flag(name) => FlagReads(name, rest);
      case Test(_, _, _, _) => TestReads(f, rest);
      case Nested(_, _) => NestedReads(f, rest);
    }
  }

  // ----- lists of filters -----

  lemma NotOperator(kind: TokenType)
    requires IdentifierOrKeyword(kind) || kind in {TokenString, TokenTilde, TokenLParen, TokenEOF}
    ensures FilterOperator(kind).None? && kind != TokenComma
  {
  }

  lemma FilterStarts(f: Filter, rest: Tokens)
    requires WritableFilter(f)
    ensures StartsFilter(RenderFilter(f) + rest) && Kind(RenderFilter(f) + rest) != TokenEOF
  {
    var first := Kind(RenderFilter(f) + rest);
    if f.Flag? {
      FieldWordNames(f.name);
    } else if f.Nested? {
      NestedKind(f, rest);
    } else if f.Test? {
      FieldWordNames(f.field);
      TestText(f, rest);
      if !f.negated {
        assert Current(RenderFilter(f) + rest) == FieldWord(f.field);
      }
    }
    NotOperator(first);
  }

  lemma {:induction false} FiltersParse(fs: seq<Filter>)
    requires AllWritableFilters(fs) && Shallow(fs)
    ensures SimpleFilters(RenderFilters(fs) + [END]) == Ok(Conditions(fs))
    ensures StartsFilter(RenderFilters(fs) + [END])
    decreases |fs|
  {
    if fs == [] {
      assert [] + [END] == [END];
      NotOperator(TokenEOF);
    } else {
      var rest := RenderFilters(fs[1..]) + [END];
      FiltersParse(fs[1..]);
      FilterReads(fs[0], rest);
      FilterStarts(fs[0], rest);
      FiltersText(fs);
      ConditionsText(fs);
      OneMoreFilter(RenderFilter(fs[0]) + rest, FilterCondition(fs[0]), rest, Conditions(fs[1..]));
    }
  }

  lemma FiltersText(fs: seq<Filter>)
    requires fs != []
    ensures RenderFilters(fs) + [END] == RenderFilter(fs[0]) + (RenderFilters(fs[1..]) + [END])
  {
  }

  lemma ConditionsText(fs: seq<Filter>)
    requires fs != []
    ensures Conditions(fs) == [FilterCondition(fs[0])] + Conditions(fs[1..])
  {
  }

  lemma OneMoreFilter(ts: Tokens, c: Condition, rest: Tokens, cs: seq<Condition>)
    requires Kind(ts) != TokenEOF && ParseSimpleFilter(ts) == Ok((c, rest)) && SimpleFilters(rest) == Ok(cs)
    ensures SimpleFilters(ts) == Ok([c] + cs)
  {
  }

  /** A list of filters that does not begin like a statement is the query that requires all of them. */
  lemma FiltersRead(fs: seq<Filter>)
    requires fs != [] && AllWritableFilters(fs) && Shallow(fs)
    requires !BeginsStatement(Kind(RenderFilters(fs) + [END]))
    ensures ParseQuery(RenderFilters(fs) + [END]) == Ok(FilterQuery(fs))
  {
    FiltersParse(fs);
    FilterStarts(fs[0], RenderFilters(fs[1..]) + [END]);
    FiltersText(fs);
    DispatchesToFilters(RenderFilters(fs) + [END]);
  }

  predicate BeginsStatement(kind: TokenType) {
    kind in {TokenSelect, TokenCount, TokenSum, TokenAvg, TokenMin, TokenMax, TokenUpdate, TokenDelete}
  }

  lemma DispatchesToFilters(ts: Tokens)
    requires !BeginsStatement(Kind(ts)) && Kind(ts) != TokenEOF
    ensures ParseQuery(ts) == ParseSimpleFilters(ts)
  {
  }

  /** A group nested too deep is rejected, whatever follows. */
  lemma DeepFilterRejected(f: Filter, rest: Tokens)
    requires f.Nested? && WritableFilter(f) && FilterNesting(f) > 10
    ensures ParseQuery(RenderFilter(f) + rest) == Err(NestedGroupDepth(10))
  {
    var ts := RenderFilter(f) + rest;
    NestedReads(f, rest);
    NestedKind(f, rest);
    DispatchesToFilters(ts);
    FirstFails(ts);
  }

  /** From text: filters written and laid out in any way, `status:active` and `age >= 18` alike. */
  lemma FilterTextParses(fs: seq<Filter>, ps: seq<Piece>, end: string)
    requires fs != [] && AllWritableFilters(fs) && Shallow(fs)
    requires !BeginsStatement(Kind(RenderFilters(fs) + [END]))
    requires WellSpaced(ps, end) && Written(ps) == RenderFilters(fs) + [END]
    ensures ParseText(Layout(ps, end)) == Ok(FilterQuery(fs))
  {
    LayoutLexes(ps, end);
    FiltersRead(fs);
    var ts := RenderFilters(fs) + [END];
    assert ts[|ts| - 1] == END;
  }
}
