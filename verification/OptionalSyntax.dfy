/** What may be left out of a query, or written differently, without changing it. */
module OptionalSyntax {
  import opened Results
  import opened QueryAst
  import opened QueryTokens
  import opened QueryParser
  import opened ParserRoundTrip
  import opened QueryRoundTrip

  /** DELETE, COUNT and the aggregates may do without FROM. */
  lemma FromIsOptional(kind: TokenType, ts: Tokens)
    requires kind in {TokenCount, TokenSum, TokenAvg, TokenMin, TokenMax, TokenDelete}
    requires Kind(ts) !in {TokenFrom, TokenLParen}
    ensures ParseQuery([Word(kind)] + ([Word(TokenFrom)] + ts)) == ParseQuery([Word(kind)] + ts)
  {
    AfterOne(Word(kind), [Word(TokenFrom)] + ts);
    AfterOne(Word(kind), ts);
    AfterOne(Word(TokenFrom), ts);
  }

  /** So may a SELECT of all columns. */
  lemma SelectFromIsOptional(entity: string, rest: Tokens)
    requires Kind(rest) !in {TokenComma, TokenFrom}
    ensures ParseQuery([Word(TokenSelect)] + ([Word(TokenFrom)] + ([Name(entity)] + rest)))
         == ParseQuery([Word(TokenSelect)] + ([Name(entity)] + rest))
         == ParseClauses(Blank(QuerySelect).(entity := entity), rest)
  {
    var named := [Name(entity)] + rest;
    AfterOne(Name(entity), rest);
    AfterOne(Word(TokenSelect), [Word(TokenFrom)] + named);
    AfterOne(Word(TokenSelect), named);
    AfterOne(Word(TokenFrom), named);
  }

  /** ORDER and GROUP may do without BY. */
  lemma ByIsOptional(q: Query, keyword: TokenType, ts: Tokens)
    requires keyword in {TokenOrder, TokenGroup} && Kind(ts) != TokenBy
    ensures ParseClause(q, [Word(keyword)] + ([Word(TokenBy)] + ts)) == ParseClause(q, [Word(keyword)] + ts)
  {
    AfterOne(Word(keyword), [Word(TokenBy)] + ts);
    AfterOne(Word(keyword), ts);
    AfterOne(Word(TokenBy), ts);
  }

  /** INCLUDE is another word for WITH. */
  lemma IncludeIsWith(q: Query, ts: Tokens)
    ensures ParseClause(q, [Word(TokenInclude)] + ts) == ParseClause(q, [Word(TokenWith)] + ts)
  {
    AfterOne(Word(TokenInclude), ts);
    AfterOne(Word(TokenWith), ts);
  }

  /** A field to order by without a direction is ascending. */
  lemma AscendingIsDefault(field: string, ts: Tokens, first: bool)
    requires Kind(ts) !in {TokenAsc, TokenDesc}
    ensures var short := ParseOrders([FieldWord(field)] + ts, first);
      short == ParseOrders(RenderOrder1(OrderClause(field, Ascending)) + ts, first)
      && (short.Ok? ==> short.value.0[0] == OrderClause(field, Ascending))
  {
    FieldWordNames(field);
    AfterOne(FieldWord(field), ts);
    AfterTwo(FieldWord(field), Word(TokenAsc), ts);
  }

  /** A comma after the last name of a list is passed over. */
  lemma TrailingComma(name: string, ts: Tokens, first: bool)
    requires !IdentifierOrKeyword(Kind(ts)) && Kind(ts) != TokenComma
    ensures ParseIdents([FieldWord(name)] + ([Word(TokenComma)] + ts), first) == Ok(([name], ts))
    ensures ParseIdents([FieldWord(name)] + ts, first) == Ok(([name], ts))
  {
    FieldWordNames(name);
    NextName(FieldWord(name), ts, first);
    LastName(FieldWord(name), ts, first);
    assert ParseIdents(ts, false) == Ok(([], ts));
    assert [name] + [] == [name];
  }

  /** So is one after the last bare word of a value. */
  lemma TrailingWordComma(word: string, ts: Tokens)
    requires Kind(ts) !in {TokenIdent, TokenString, TokenNumber}
    ensures ParseValue([Name(word)] + ([Word(TokenComma)] + ts)) == Ok((List([Str(word)]), ts))
  {
    AfterOne(Name(word), [Word(TokenComma)] + ts);
    AfterOne(Word(TokenComma), ts);
    assert [Str(word)] + [] == [Str(word)];
  }

  /** A clause written again replaces the one before it. */
  lemma LaterReplaces(q: Query, keyword: TokenType, ts: Tokens)
    requires keyword in {TokenLimit, TokenOffset, TokenOrder, TokenGroup, TokenWhere, TokenHaving, TokenWith}
    ensures var before := ParseClause(q.(includes := [], where := None, groupBy := [], having := None, orderBy := [],
                                         limit := None, offset := None), [Word(keyword)] + ts);
      var again := ParseClause(q, [Word(keyword)] + ts);
      match before
      case Err(e) => again == Err(e)
      case Ok(p) =>
        again.Ok? && again.value.1 == p.1 && again.value.0 == (
          match keyword
          case TokenLimit => q.(limit := p.0.limit)
          case TokenOffset => q.(offset := p.0.offset)
          case TokenOrder => q.(orderBy := p.0.orderBy)
          case TokenGroup => q.(groupBy := p.0.groupBy)
          case TokenWhere => q.(where := p.0.where)
          case TokenHaving => q.(having := p.0.having)
          case _ => q.(includes := p.0.includes))
  {
    AfterOne(Word(keyword), ts);
  }
}
