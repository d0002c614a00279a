/** From text to query: the lexer and the parser together read back any query whose names are plain
    identifiers, however its text is laid out. */
module QueryText {
  import opened Results
  import opened QueryAst
  import opened QueryTokens
  import opened QueryParser
  import opened ParserRoundTrip
  import opened QueryRoundTrip
  import opened LexerRoundTrip
  import opened AcceptedQueries
  import Lexer
  import opened Keywords
  import Columns
  import MeaningPreserved
  import SqlCompiler
  import SqlStatements
  import StatementMeaning
  import Truth

  datatype TextError = LexerError(message: string) | SyntaxError(error: ParseError)

  function ParseText(s: string): Result<Query, TextError> {
    var ts := Lexer.Tokens(s);
    var last := ts[|ts| - 1];
    if last.kind == TokenError then Err(LexerError(last.text))
    else
      match ParseQuery(ts)
      case Ok(q) => Ok(q)
      case Err(e) => Err(SyntaxError(e))
  }

  lemma LastIsEnd(s: string)
    ensures var ts := Lexer.Tokens(s); ts[|ts| - 1].kind in {TokenEOF, TokenError}
  {
    TokensLexable(s);
    EndsWell(Lexer.Tokens(s));
  }

  lemma {:induction false} EndsWell(ts: Tokens)
    requires WellEnded(ts)
    ensures ts[|ts| - 1].kind in {TokenEOF, TokenError}
    decreases |ts|
  {
    if |ts| > 1 {
      EndsWell(ts[1..]);
    }
  }

  method Lex(input: string) returns (tokens: Tokens, ok: bool)
    ensures tokens == Lexer.Tokens(input)
    ensures ok == (tokens[|tokens| - 1].kind == TokenEOF)
  {
    var lexer := new Lexer.Scanner(input);
    ok := lexer.Tokenize();
    assert input[0..] == input;
    tokens := lexer.tokens;
  }

  /** Lex, then parse. */
  method Parse(input: string) returns (r: Result<Query, TextError>)
    ensures r == ParseText(input)
  {
    var tokens, ok := Lex(input);
    LastIsEnd(input);
    if !ok {
      return Err(LexerError(tokens[|tokens| - 1].text));
    }
    var q := ParseTokens(tokens);
    r := if q.Ok? then Ok(q.value) else Err(SyntaxError(q.error));
  }

  method ParseTokens(tokens: Tokens) returns (q: Result<Query, ParseError>)
    ensures q == ParseQuery(tokens)
  {
    var parser := new Parser(tokens);
    q := parser.Parse();
  }

  // ----- what an accepted text means -----

  lemma {:induction false} LexedNamed(ts: Tokens)
    requires WellEnded(ts)
    ensures Named(ts)
    decreases |ts|
  {
    if |ts| > 1 {
      LexedNamed(ts[1..]);
    }
  }

  /** From text to rows: an accepted text that compiles is one statement at the database, and its
      WHERE chooses the rows on which the parsed clause is true, and its HAVING has the truth of the
      parsed one. */
  lemma TextMeaning(s: string, entity: EntityMeta, db: Truth.Interp, row: Truth.Row)
    requires ParseText(s).Ok? && SqlCompiler.CompileFor(ParseText(s).value, entity).Ok?
    ensures var q := ParseText(s).value;
      var p := SqlCompiler.CompileFor(q, entity).value;
      var statement := SqlStatements.ReadStatement(p.sql);
      statement == Some(StatementMeaning.StatementOf(q, entity))
      && (SqlStatements.Chosen(db, statement.value.where, p.args, row)
          <==> MeaningPreserved.FilterTruth(db, entity, q.where, row) == Truth.True)
      && HavingAgrees(q, entity, db, row, statement.value, p.args)
  {
    TokensLexable(s);
    LexedNamed(Lexer.Tokens(s));
    AcceptedQueryMeaning(Lexer.Tokens(s), entity, db, row);
  }

  // ----- every keyword, operator and punctuation mark is read as itself -----

  lemma NotLiteral(kind: TokenType)
    requires IsWord(kind)
    ensures kind !in {TokenString, TokenParam, TokenNumber, TokenIdent}
  {
  }

  lemma WordLexable(kind: TokenType)
    requires IsWord(kind)
    ensures Lexable(Word(kind))
  {
    WordListed(kind);
    NotLiteral(kind);
    SameText(kind);
    Letters(Spelling(kind));
  }

  lemma Letters(text: string)
    requires LowerCase(text) && text != ""
    ensures WordLike(text) && Columns.Smalls(text) == text
  {
  }

  predicate IsOperatorKind(kind: TokenType) {
    kind in {TokenNotEquals, TokenGreater, TokenGreaterEq, TokenLess, TokenLessEq}
  }

  predicate IsBracket(kind: TokenType) {
    kind == TokenLParen || kind == TokenRParen || kind == TokenLBracket || kind == TokenRBracket
  }

  predicate IsMarkKind(kind: TokenType) {
    kind == TokenEquals || kind == TokenComma || kind == TokenDot || kind == TokenColon || kind == TokenTilde
  }

  /** What has a spelling is a keyword, an operator or a mark. */
  lemma SpelledKinds(kind: TokenType)
    requires Spelling(kind) != ""
    ensures IsWord(kind) || IsOperatorKind(kind) || IsBracket(kind) || IsMarkKind(kind)
  {
  }

  lemma OperatorLexable(kind: TokenType)
    requires IsOperatorKind(kind)
    ensures Lexable(Word(kind))
  {
  }

  lemma BracketLexable(kind: TokenType)
    requires IsBracket(kind)
    ensures Lexable(Word(kind))
  {
  }

  lemma MarkIsLexable(t: Token)
    requires IsMark(t)
    ensures Lexable(t)
  {
  }

  lemma MarkLexable(kind: TokenType)
    requires IsMarkKind(kind)
    ensures Lexable(Word(kind))
  {
    assert IsMark(Word(kind));
    MarkIsLexable(Word(kind));
  }

  lemma KeywordLexable(kind: TokenType)
    requires Spelling(kind) != ""
    ensures Lexable(Word(kind))
  {
    SpelledKinds(kind);
    if IsWord(kind) {
      WordLexable(kind);
    } else if IsOperatorKind(kind) {
      OperatorLexable(kind);
    } else if IsBracket(kind) {
      BracketLexable(kind);
    } else {
      MarkLexable(kind);
    }
  }

  // ----- the text of a query -----

  /** All tokens of the query but the end. */
  function QueryTokensOf(q: Query): Tokens {
    RenderHead(q) + RenderClauses(q, [])
  }

  lemma PutLast(a: Tokens, b: Tokens, c: Tokens, last: Token)
    requires c == b + [last]
    ensures a + c == a + b + [last]
  {
  }

  lemma QueryEnd(q: Query)
    ensures RenderQuery(q) == QueryTokensOf(q) + [END]
  {
    var n1, n2, o := RenderNumber(TokenOffset, q.offset), RenderNumber(TokenLimit, q.limit), RenderOrder(q);
    var h, g, w, i := RenderHaving(q), RenderGroup(q), RenderWhere(q), RenderInclude(q);
    PutLast(n1, [], [END], END);
    PutLast(n2, n1 + [], n1 + [END], END);
    PutLast(o, n2 + (n1 + []), n2 + (n1 + [END]), END);
    PutLast(h, o + (n2 + (n1 + [])), o + (n2 + (n1 + [END])), END);
    PutLast(g, h + (o + (n2 + (n1 + []))), h + (o + (n2 + (n1 + [END]))), END);
    PutLast(w, g + (h + (o + (n2 + (n1 + [])))), g + (h + (o + (n2 + (n1 + [END])))), END);
    PutLast(i, w + (g + (h + (o + (n2 + (n1 + []))))), w + (g + (h + (o + (n2 + (n1 + [END]))))), END);
    PutLast(RenderHead(q), RenderClauses(q, []), RenderClauses(q, [END]), END);
  }

  /** If its names and literals can be spelled, the text of a query, its tokens written and laid out in
      any way, parses back to the query when its groups nest at most ten deep, and is rejected for its
      nesting otherwise. */
  lemma QueryTextParses(q: Query, ps: seq<Piece>, end: string)
    requires WritableQuery(q) && WellSpaced(ps, end) && Written(ps) == QueryTokensOf(q) + [END]
    ensures ParseText(Layout(ps, end))
         == if QueryNesting(q) <= 10 then Ok(q) else Err(SyntaxError(NestedGroupDepth(10)))
  {
    QueryEnd(q);
    LayoutLexes(ps, end);
    QueryParses(q);
  }
}
