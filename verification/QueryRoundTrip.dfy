/** Whole queries written as tokens and parsed back. */
module QueryRoundTrip {
  import opened Results
  import opened QueryAst
  import opened QueryTokens
  import opened QueryParser
  import opened ParserRoundTrip
  import Decimal

  // ----- lists -----

  function RenderNames(names: seq<string>): Tokens {
    if names == [] then []
    else if |names| == 1 then [FieldWord(names[0])]
    else [FieldWord(names[0]), Word(TokenComma)] + RenderNames(names[1..])
  }

  function RenderOrder1(o: OrderClause): Tokens {
    [FieldWord(o.field), Word(if o.direction == Descending then TokenDesc else TokenAsc)]
  }

  function RenderOrders(orders: seq<OrderClause>): Tokens {
    if orders == [] then [] else
    var first := RenderOrder1(orders[0]);
    if |orders| == 1 then first else first + ([Word(TokenComma)] + RenderOrders(orders[1..]))
  }

  function RenderUpdate1(u: UpdateSet): Tokens {
    [FieldWord(u.field), Word(TokenEquals)] + RenderValue(u.value)
  }

  function RenderUpdates(us: seq<UpdateSet>): Tokens {
    if us == [] then [] else
    var first := RenderUpdate1(us[0]);
    if |us| == 1 then first else first + ([Word(TokenComma)] + RenderUpdates(us[1..]))
  }

  predicate AllUpdatesWritable(us: seq<UpdateSet>) {
    us == [] || (us[0].op == SetValue && Writable(us[0].value) && AllUpdatesWritable(us[1..]))
  }

  lemma LastName(word: Token, rest: Tokens, first: bool)
    requires IdentifierOrKeyword(word.kind) && Kind(rest) != TokenComma
    ensures ParseIdents([word] + rest, first) == Ok(([word.text], rest))
  {
    AfterOne(word, rest);
    assert [word.text] + [] == [word.text];
  }

  lemma NextName(word: Token, more: Tokens, first: bool)
    requires IdentifierOrKeyword(word.kind)
    ensures ParseIdents([word] + ([Word(TokenComma)] + more), first) == Prepend([word.text], ParseIdents(more, false))
  {
    AfterOne(word, [Word(TokenComma)] + more);
    AfterOne(Word(TokenComma), more);
  }

  lemma Prepended<T>(xs: seq<T>, r: Parsed<seq<T>>, rest: Tokens)
    requires xs != [] && r == Ok((xs[1..], rest))
    ensures Prepend([xs[0]], r) == Ok((xs, rest))
  {
    assert [xs[0]] + xs[1..] == xs;
  }

  lemma {:induction false} NamesParse(names: seq<string>, rest: Tokens, first: bool)
    requires names != [] && Kind(rest) != TokenComma
    ensures ParseIdents(RenderNames(names) + rest, first) == Ok((names, rest))
    decreases |names|
  {
    FieldWordNames(names[0]);
    if |names| == 1 {
      LastName(FieldWord(names[0]), rest, first);
      assert [names[0]] == names;
    } else {
      var more := RenderNames(names[1..]) + rest;
      NamesParse(names[1..], rest, false);
      NextName(FieldWord(names[0]), more, first);
      NamesText(names, rest);
      Prepended(names, ParseIdents(more, false), rest);
    }
  }

  lemma NamesText(names: seq<string>, rest: Tokens)
    requires |names| > 1
    ensures RenderNames(names) + rest == [FieldWord(names[0])] + ([Word(TokenComma)] + (RenderNames(names[1..]) + rest))
  {
    TwoThen(FieldWord(names[0]), Word(TokenComma), RenderNames(names[1..]), rest);
  }

  lemma TwoThen(a: Token, b: Token, more: Tokens, rest: Tokens)
    ensures [a, b] + more + rest == [a] + ([b] + (more + rest))
  {
  }

  lemma OrderParses(o: OrderClause, rest: Tokens)
    ensures var ts := RenderOrder1(o) + rest;
      IdentifierOrKeyword(Kind(ts)) && ParseOrder(ts) == (o, rest)
  {
    FieldWordNames(o.field);
    AfterTwo(FieldWord(o.field), Word(if o.direction == Descending then TokenDesc else TokenAsc), rest);
  }

  lemma LastOrder(o: OrderClause, rest: Tokens, first: bool)
    requires Kind(rest) != TokenComma
    ensures ParseOrders(RenderOrder1(o) + rest, first) == Ok(([o], rest))
  {
    OrderParses(o, rest);
    assert [o] + [] == [o];
  }

  lemma NextOrder(o: OrderClause, more: Tokens, first: bool)
    ensures ParseOrders(RenderOrder1(o) + ([Word(TokenComma)] + more), first) == Prepend([o], ParseOrders(more, false))
  {
    OrderParses(o, [Word(TokenComma)] + more);
    AfterOne(Word(TokenComma), more);
  }

  lemma {:induction false} OrdersParse(orders: seq<OrderClause>, rest: Tokens, first: bool)
    requires orders != [] && Kind(rest) != TokenComma
    ensures ParseOrders(RenderOrders(orders) + rest, first) == Ok((orders, rest))
    decreases |orders|
  {
    if |orders| == 1 {
      LastOrder(orders[0], rest, first);
      assert [orders[0]] == orders;
    } else {
      var more := RenderOrders(orders[1..]) + rest;
      OrdersParse(orders[1..], rest, false);
      NextOrder(orders[0], more, first);
      ListText(RenderOrder1(orders[0]), RenderOrders(orders[1..]), rest);
      Prepended(orders, ParseOrders(more, false), rest);
    }
  }

  lemma ListText(first: Tokens, more: Tokens, rest: Tokens)
    ensures first + ([Word(TokenComma)] + more) + rest == first + ([Word(TokenComma)] + (more + rest))
  {
  }

  lemma UpdateParses(u: UpdateSet, rest: Tokens)
    requires u.op == SetValue && Writable(u.value)
    ensures var ts := RenderUpdate1(u) + rest;
      IdentifierOrKeyword(Kind(ts)) && ParseUpdateSet(ts) == Ok((u, rest))
  {
    var value := RenderValue(u.value) + rest;
    FieldWordNames(u.field);
    Grouping([FieldWord(u.field), Word(TokenEquals)], RenderValue(u.value), rest);
    AfterTwo(FieldWord(u.field), Word(TokenEquals), value);
    ValueParses(u.value, rest);
  }

  lemma LastUpdate(u: UpdateSet, rest: Tokens, first: bool)
    requires u.op == SetValue && Writable(u.value) && Kind(rest) != TokenComma
    ensures ParseUpdates(RenderUpdate1(u) + rest, first) == Ok(([u], rest))
  {
    UpdateParses(u, rest);
    assert [u] + [] == [u];
  }

  lemma NextUpdate(u: UpdateSet, more: Tokens, first: bool)
    requires u.op == SetValue && Writable(u.value)
    ensures ParseUpdates(RenderUpdate1(u) + ([Word(TokenComma)] + more), first)
         == Prepend([u], ParseUpdates(more, false))
  {
    UpdateParses(u, [Word(TokenComma)] + more);
    AfterOne(Word(TokenComma), more);
  }

  lemma {:induction false} UpdatesParse(us: seq<UpdateSet>, rest: Tokens, first: bool)
    requires us != [] && AllUpdatesWritable(us) && Kind(rest) != TokenComma
    ensures ParseUpdates(RenderUpdates(us) + rest, first) == Ok((us, rest))
    decreases |us|
  {
    if |us| == 1 {
      LastUpdate(us[0], rest, first);
      assert [us[0]] == us;
    } else {
      var more := RenderUpdates(us[1..]) + rest;
      UpdatesParse(us[1..], rest, false);
      NextUpdate(us[0], more, first);
      ListText(RenderUpdate1(us[0]), RenderUpdates(us[1..]), rest);
      Prepended(us, ParseUpdates(more, false), rest);
    }
  }

  // ----- clauses -----

  function RenderInclude(q: Query): Tokens {
    if q.includes == [] then [] else [Word(TokenWith)] + RenderNames(q.includes)
  }

  function RenderWhere(q: Query): Tokens {
    if q.where.None? then [] else [Word(TokenWhere)] + RenderClause(q.where.value)
  }

  function RenderGroup(q: Query): Tokens {
    if q.groupBy == [] then [] else [Word(TokenGroup), Word(TokenBy)] + RenderNames(q.groupBy)
  }

  function RenderHaving(q: Query): Tokens {
    if q.having.None? then [] else [Word(TokenHaving)] + RenderClause(q.having.value)
  }

  function RenderOrder(q: Query): Tokens {
    if q.orderBy == [] then [] else [Word(TokenOrder), Word(TokenBy)] + RenderOrders(q.orderBy)
  }

  function RenderNumber(keyword: TokenType, n: Option<int>): Tokens {
    if n.None? then [] else [Word(keyword), Token(TokenNumber, Decimal.Print(n.value))]
  }

  /** The clauses in their usual order, then `rest`. */
  function RenderClauses(q: Query, rest: Tokens): Tokens {
    RenderInclude(q) + (RenderWhere(q) + (RenderGroup(q) + (RenderHaving(q) + (RenderOrder(q)
    + (RenderNumber(TokenLimit, q.limit) + (RenderNumber(TokenOffset, q.offset) + rest))))))
  }

  predicate WritableClauses(q: Query) {
    && (q.where.Some? ==> WritableClause(q.where.value))
    && (q.having.Some? ==> WritableClause(q.having.value))
    && (q.limit.Some? ==> Decimal.InInt64(q.limit.value))
    && (q.offset.Some? ==> Decimal.InInt64(q.offset.value))
  }

  function OptionalNesting(w: Option<WhereClause>): nat {
    if w.Some? then ClauseNesting(w.value) else 0
  }

  /** The query as it stands before its clauses are read. */
  function Unclaused(q: Query): Query {
    Query(q.kind, q.entity, q.fields, None, [], None, None, [], [], None, q.updates, q.aggField)
  }

  /** Tokens a clause list may start or end with. */
  predicate AtClause(ts: Tokens) {
    Kind(ts) in {TokenEOF, TokenWith, TokenWhere, TokenGroup, TokenHaving, TokenOrder, TokenLimit, TokenOffset}
  }

  lemma ClauseStep(q: Query, ts: Tokens, q': Query, rest: Tokens)
    requires Kind(ts) != TokenEOF && ParseClause(q, ts) == Ok((q', rest))
    ensures ParseClauses(q, ts) == ParseClauses(q', rest)
  {
  }

  lemma IncludeParses(q: Query, full: Query, rest: Tokens)
    requires q.includes == [] && AtClause(rest)
    ensures var ts := RenderInclude(full) + rest;
      AtClause(ts) && ParseClauses(q, ts) == ParseClauses(q.(includes := full.includes), rest)
  {
    if full.includes == [] {
      assert [] + rest == rest;
    } else {
      var names := RenderNames(full.includes) + rest;
      Grouping([Word(TokenWith)], RenderNames(full.includes), rest);
      NamesParse(full.includes, rest, true);
      IncludeStep(q, full.includes, names, rest);
    }
  }

  lemma IncludeStep(q: Query, includes: seq<string>, names: Tokens, rest: Tokens)
    requires ParseIdents(names, true) == Ok((includes, rest))
    ensures var ts := [Word(TokenWith)] + names;
      AtClause(ts) && ParseClauses(q, ts) == ParseClauses(q.(includes := includes), rest)
  {
    AfterOne(Word(TokenWith), names);
  }

  /** A WHERE or a HAVING whose clause parses, or nests too deep. */
  lemma FilterStep(q: Query, keyword: TokenType, w: WhereClause, text: Tokens, rest: Tokens)
    requires keyword in {TokenWhere, TokenHaving} && ParseWhere(text, 0) == Limited(ClauseNesting(w), 0, w, rest)
    ensures var ts := [Word(keyword)] + text;
      AtClause(ts) && ParseClauses(q, ts)
        == if ClauseNesting(w) > MAX_DEPTH then Err(NestedGroupDepth(MAX_DEPTH))
           else ParseClauses(if keyword == TokenWhere then q.(where := Some(w)) else q.(having := Some(w)), rest)
  {
    AfterOne(Word(keyword), text);
  }

  lemma WhereParses(q: Query, full: Query, rest: Tokens)
    requires q.where == None && AtClause(rest) && (full.where.Some? ==> WritableClause(full.where.value))
    ensures var ts := RenderWhere(full) + rest;
      AtClause(ts) && ParseClauses(q, ts)
        == if OptionalNesting(full.where) <= MAX_DEPTH then ParseClauses(q.(where := full.where), rest)
           else Err(NestedGroupDepth(MAX_DEPTH))
  {
    if full.where.None? {
      assert [] + rest == rest;
    } else {
      var text := RenderClause(full.where.value) + rest;
      Grouping([Word(TokenWhere)], RenderClause(full.where.value), rest);
      ClauseParses(full.where.value, rest, 0);
      FilterStep(q, TokenWhere, full.where.value, text, rest);
    }
  }

  lemma HavingParses(q: Query, full: Query, rest: Tokens)
    requires q.having == None && AtClause(rest) && (full.having.Some? ==> WritableClause(full.having.value))
    ensures var ts := RenderHaving(full) + rest;
      AtClause(ts) && ParseClauses(q, ts)
        == if OptionalNesting(full.having) <= MAX_DEPTH then ParseClauses(q.(having := full.having), rest)
           else Err(NestedGroupDepth(MAX_DEPTH))
  {
    if full.having.None? {
      assert [] + rest == rest;
    } else {
      var text := RenderClause(full.having.value) + rest;
      Grouping([Word(TokenHaving)], RenderClause(full.having.value), rest);
      ClauseParses(full.having.value, rest, 0);
      FilterStep(q, TokenHaving, full.having.value, text, rest);
    }
  }

  lemma GroupByParses(q: Query, full: Query, rest: Tokens)
    requires q.groupBy == [] && AtClause(rest)
    ensures var ts := RenderGroup(full) + rest;
      AtClause(ts) && ParseClauses(q, ts) == ParseClauses(q.(groupBy := full.groupBy), rest)
  {
    if full.groupBy == [] {
      assert [] + rest == rest;
    } else {
      var names := RenderNames(full.groupBy) + rest;
      Grouping([Word(TokenGroup), Word(TokenBy)], RenderNames(full.groupBy), rest);
      NamesParse(full.groupBy, rest, true);
      GroupByStep(q, names, full.groupBy, rest);
    }
  }

  lemma GroupByStep(q: Query, ts: Tokens, names: seq<string>, rest: Tokens)
    requires ParseIdents(ts, true) == Ok((names, rest))
    ensures var all := [Word(TokenGroup), Word(TokenBy)] + ts;
      AtClause(all) && ParseClauses(q, all) == ParseClauses(q.(groupBy := names), rest)
  {
    AfterTwo(Word(TokenGroup), Word(TokenBy), ts);
    ClauseStep(q, [Word(TokenGroup), Word(TokenBy)] + ts, q.(groupBy := names), rest);
  }

  lemma OrderByParses(q: Query, full: Query, rest: Tokens)
    requires q.orderBy == [] && AtClause(rest)
    ensures var ts := RenderOrder(full) + rest;
      AtClause(ts) && ParseClauses(q, ts) == ParseClauses(q.(orderBy := full.orderBy), rest)
  {
    if full.orderBy == [] {
      assert [] + rest == rest;
    } else {
      var list := RenderOrders(full.orderBy) + rest;
      Grouping([Word(TokenOrder), Word(TokenBy)], RenderOrders(full.orderBy), rest);
      OrdersParse(full.orderBy, rest, true);
      OrderByStep(q, list, full.orderBy, rest);
    }
  }

  lemma OrderByStep(q: Query, ts: Tokens, orders: seq<OrderClause>, rest: Tokens)
    requires ParseOrders(ts, true) == Ok((orders, rest))
    ensures var all := [Word(TokenOrder), Word(TokenBy)] + ts;
      AtClause(all) && ParseClauses(q, all) == ParseClauses(q.(orderBy := orders), rest)
  {
    AfterTwo(Word(TokenOrder), Word(TokenBy), ts);
    ClauseStep(q, [Word(TokenOrder), Word(TokenBy)] + ts, q.(orderBy := orders), rest);
  }

  lemma BoundStep(q: Query, keyword: TokenType, ts: Tokens, n: int, rest: Tokens)
    requires keyword in {TokenLimit, TokenOffset} && ParseInt(ts) == Ok((n, rest))
    ensures var all := [Word(keyword)] + ts;
      AtClause(all) && ParseClauses(q, all)
        == ParseClauses(if keyword == TokenLimit then q.(limit := Some(n)) else q.(offset := Some(n)), rest)
  {
    var all := [Word(keyword)] + ts;
    AfterOne(Word(keyword), ts);
    ClauseStep(q, all, if keyword == TokenLimit then q.(limit := Some(n)) else q.(offset := Some(n)), rest);
  }

  lemma IntParses(n: int, rest: Tokens)
    requires Decimal.InInt64(n)
    ensures ParseInt([Token(TokenNumber, Decimal.Print(n))] + rest) == Ok((n, rest))
  {
    AfterOne(Token(TokenNumber, Decimal.Print(n)), rest);
    Decimal.ReadPrinted(n);
  }

  lemma TwoWords(a: Token, b: Token, rest: Tokens)
    ensures [a, b] + rest == [a] + ([b] + rest)
  {
  }

  lemma BoundParses(q: Query, keyword: TokenType, n: Option<int>, rest: Tokens)
    requires keyword in {TokenLimit, TokenOffset} && AtClause(rest) && (n.Some? ==> Decimal.InInt64(n.value))
    requires if keyword == TokenLimit then q.limit == None else q.offset == None
    ensures var ts := RenderNumber(keyword, n) + rest;
      AtClause(ts) && ParseClauses(q, ts)
        == ParseClauses(if keyword == TokenLimit then q.(limit := n) else q.(offset := n), rest)
  {
    if n.None? {
      assert [] + rest == rest;
    } else {
      IntParses(n.value, rest);
      TwoWords(Word(keyword), Token(TokenNumber, Decimal.Print(n.value)), rest);
      BoundStep(q, keyword, [Token(TokenNumber, Decimal.Print(n.value))] + rest, n.value, rest);
    }
  }

  function QueryNesting(q: Query): nat {
    Max(OptionalNesting(q.where), OptionalNesting(q.having))
  }

  function Accepted(q: Query): Result<Query, ParseError> {
    if QueryNesting(q) <= 10 then Ok(q) else Err(NestedGroupDepth(10))
  }

  lemma ClausesParse(q: Query, rest: Tokens)
    requires WritableClauses(q) && Kind(rest) == TokenEOF
    ensures AtClause(RenderClauses(q, rest))
    ensures ParseClauses(Unclaused(q), RenderClauses(q, rest)) == Accepted(q)
  {
    var t1 := RenderNumber(TokenOffset, q.offset) + rest;
    var t2 := RenderNumber(TokenLimit, q.limit) + t1;
    var t3 := RenderOrder(q) + t2;
    var t4 := RenderHaving(q) + t3;
    var t5 := RenderGroup(q) + t4;
    var t6 := RenderWhere(q) + t5;
    var q1 := Unclaused(q).(includes := q.includes);
    var q2 := q1.(where := q.where);
    var q3 := q2.(groupBy := q.groupBy);
    var q4 := q3.(having := q.having);
    var q5 := q4.(orderBy := q.orderBy);
    var q6 := q5.(limit := q.limit);
    BoundParses(q6, TokenOffset, q.offset, rest);
    BoundParses(q5, TokenLimit, q.limit, t1);
    OrderByParses(q4, q, t2);
    HavingParses(q3, q, t3);
    GroupByParses(q2, q, t4);
    WhereParses(q1, q, t5);
    IncludeParses(Unclaused(q), q, t6);
    assert q6.(offset := q.offset) == q;
  }

  // ----- statements -----

  function AggregateWord(kind: QueryType): Token {
    Word(match kind
         case QuerySum => TokenSum
         case QueryAvg => TokenAvg
         case QueryMin => TokenMin
         case QueryMax => TokenMax
         case _ => TokenCount)
  }

  /** The statement up to its clauses. */
  function RenderHead(q: Query): Tokens {
    match q.kind
    case QuerySelect =>
      [Word(TokenSelect)]
      + (if q.fields == [] then [] else RenderNames(q.fields) + [Word(TokenFrom)]) + [Name(q.entity)]
    case QueryUpdate => [Word(TokenUpdate), Name(q.entity), Word(TokenSet)] + RenderUpdates(q.updates)
    case QueryDelete => [Word(TokenDelete), Word(TokenFrom), Name(q.entity)]
    case _ =>
      [AggregateWord(q.kind)]
      + (if q.aggField == "" then [] else [Word(TokenLParen), Name(q.aggField), Word(TokenRParen)])
      + [Word(TokenFrom), Name(q.entity)]
  }

  /** The tokens of a query, ended by the lexer's EOF token. */
  function RenderQuery(q: Query): Tokens {
    RenderHead(q) + RenderClauses(q, [END])
  }

  /** A query the language can spell: parts its kind does not use are empty, field lists do not
      start with `*` or a keyword, and UPDATE sets something. */
  predicate WritableQuery(q: Query) {
    && WritableClauses(q)
    && (q.kind != QuerySelect ==> q.fields == [])
    && (q.fields != [] ==> q.fields[0] != "*" && FieldWord(q.fields[0]).kind == TokenIdent)
    && (if q.kind == QueryUpdate then q.updates != [] && AllUpdatesWritable(q.updates) else q.updates == [])
    && (q.kind in {QuerySelect, QueryCount, QueryUpdate, QueryDelete} ==> q.aggField == "")
  }

  lemma NamesStart(names: seq<string>, rest: Tokens)
    requires names != []
    ensures Current(RenderNames(names) + rest) == FieldWord(names[0])
    ensures |names| > 1 ==> Peek(RenderNames(names) + rest) == Word(TokenComma)
    ensures |names| == 1 ==> Peek(RenderNames(names) + rest) == Current(rest)
  {
    if |names| == 1 {
      AfterOne(FieldWord(names[0]), rest);
    }
  }

  lemma EntityReads(q: Query, entity: string, clauses: Tokens)
    ensures ParseEntity(q, [Name(entity)] + clauses) == Ok((q.(entity := entity), clauses))
  {
    AfterOne(Name(entity), clauses);
  }

  /** Without a comma or FROM after the first name there is no list of fields. */
  lemma Unlisted(ts: Tokens)
    requires Peek(Next(ts)).kind !in {TokenComma, TokenFrom}
    ensures ParseSelect(ts)
         == match ParseEntity(Blank(QuerySelect).(fields := []), SkipFrom(Next(ts)))
            case Err(e) => Err(e)
            case Ok(named) => ParseClauses(named.0, named.1)
  {
  }

  lemma SelectAllStep(entity: string, clauses: Tokens)
    requires AtClause(clauses)
    ensures var ts := [Word(TokenSelect)] + ([Name(entity)] + clauses);
      Kind(ts) == TokenSelect && ParseSelect(ts) == ParseClauses(Blank(QuerySelect).(entity := entity), clauses)
  {
    AfterOne(Name(entity), clauses);
    AfterOne(Word(TokenSelect), [Name(entity)] + clauses);
    Unlisted([Word(TokenSelect)] + ([Name(entity)] + clauses));
    EntityReads(Blank(QuerySelect).(fields := []), entity, clauses);
  }

  lemma SelectFieldsStep(list: Tokens, fields: seq<string>, entity: string, clauses: Tokens)
    requires Kind(list) == TokenIdent && Current(list).text != "*" && Peek(list).kind in {TokenComma, TokenFrom}
    requires ParseIdents(list, true) == Ok((fields, [Word(TokenFrom)] + ([Name(entity)] + clauses)))
    ensures var ts := [Word(TokenSelect)] + list;
      Kind(ts) == TokenSelect
      && ParseSelect(ts) == ParseClauses(Blank(QuerySelect).(fields := fields, entity := entity), clauses)
  {
    AfterOne(Word(TokenSelect), list);
    AfterOne(Word(TokenFrom), [Name(entity)] + clauses);
    AfterOne(Name(entity), clauses);
  }

  lemma SelectParses(q: Query)
    requires q.kind == QuerySelect && WritableQuery(q)
    ensures Kind(RenderQuery(q)) == TokenSelect && ParseSelect(RenderQuery(q)) == Accepted(q)
  {
    var clauses := RenderClauses(q, [END]);
    ClausesParse(q, [END]);
    if q.fields == [] {
      SelectAllStep(q.entity, clauses);
      SelectAllText(q, clauses);
    } else {
      var from := [Word(TokenFrom)] + ([Name(q.entity)] + clauses);
      AfterOne(Word(TokenFrom), [Name(q.entity)] + clauses);
      NamesStart(q.fields, from);
      NamesParse(q.fields, from, true);
      SelectFieldsStep(RenderNames(q.fields) + from, q.fields, q.entity, clauses);
      SelectText(q, clauses);
    }
  }

  lemma SelectAllText(q: Query, clauses: Tokens)
    requires q.kind == QuerySelect && q.fields == []
    ensures RenderHead(q) + clauses == [Word(TokenSelect)] + ([Name(q.entity)] + clauses)
  {
  }

  lemma SelectText(q: Query, clauses: Tokens)
    requires q.kind == QuerySelect && q.fields != []
    ensures RenderHead(q) + clauses
         == [Word(TokenSelect)] + (RenderNames(q.fields) + ([Word(TokenFrom)] + ([Name(q.entity)] + clauses)))
  {
  }

  lemma UpdateQueryStep(entity: string, sets: Tokens, updates: seq<UpdateSet>, clauses: Tokens)
    requires ParseUpdates(sets, true) == Ok((updates, clauses))
    ensures var ts := [Word(TokenUpdate)] + ([Name(entity)] + ([Word(TokenSet)] + sets));
      Kind(ts) == TokenUpdate
      && ParseUpdate(ts) == ParseClauses(Blank(QueryUpdate).(entity := entity, updates := updates), clauses)
  {
    AfterOne(Word(TokenUpdate), [Name(entity)] + ([Word(TokenSet)] + sets));
    AfterOne(Name(entity), [Word(TokenSet)] + sets);
    AfterOne(Word(TokenSet), sets);
  }

  lemma UpdateQueryParses(q: Query)
    requires q.kind == QueryUpdate && WritableQuery(q)
    ensures Kind(RenderQuery(q)) == TokenUpdate && ParseUpdate(RenderQuery(q)) == Accepted(q)
  {
    var clauses := RenderClauses(q, [END]);
    ClausesParse(q, [END]);
    UpdatesParse(q.updates, clauses, true);
    UpdateQueryStep(q.entity, RenderUpdates(q.updates) + clauses, q.updates, clauses);
    UpdateText(q, clauses);
  }

  lemma UpdateText(q: Query, clauses: Tokens)
    requires q.kind == QueryUpdate
    ensures RenderHead(q) + clauses
         == [Word(TokenUpdate)] + ([Name(q.entity)] + ([Word(TokenSet)] + (RenderUpdates(q.updates) + clauses)))
  {
  }

  lemma DeleteStep(entity: string, clauses: Tokens)
    ensures var ts := [Word(TokenDelete), Word(TokenFrom)] + ([Name(entity)] + clauses);
      Kind(ts) == TokenDelete && ParseDelete(ts) == ParseClauses(Blank(QueryDelete).(entity := entity), clauses)
  {
    AfterTwo(Word(TokenDelete), Word(TokenFrom), [Name(entity)] + clauses);
    AfterOne(Name(entity), clauses);
  }

  lemma DeleteQueryParses(q: Query)
    requires q.kind == QueryDelete && WritableQuery(q)
    ensures Kind(RenderQuery(q)) == TokenDelete && ParseDelete(RenderQuery(q)) == Accepted(q)
  {
    ClausesParse(q, [END]);
    DeleteStep(q.entity, RenderClauses(q, [END]));
    DeleteText(q, RenderClauses(q, [END]));
  }

  lemma DeleteText(q: Query, clauses: Tokens)
    requires q.kind == QueryDelete
    ensures RenderHead(q) + clauses == [Word(TokenDelete), Word(TokenFrom)] + ([Name(q.entity)] + clauses)
  {
  }

  lemma AggregateFieldParses(q: Query, field: string, rest: Tokens)
    requires q.kind != QueryCount && q.aggField == "" && Kind(rest) != TokenLParen
    ensures ParseAggregateField(
      q, (if field == "" then [] else [Word(TokenLParen), Name(field), Word(TokenRParen)]) + rest)
         == Ok((q.(aggField := field), rest))
  {
    if field == "" {
      assert [] + rest == rest;
    } else {
      var inner := [Name(field), Word(TokenRParen)] + rest;
      assert [Word(TokenLParen), Name(field), Word(TokenRParen)] + rest == [Word(TokenLParen)] + inner;
      AfterOne(Word(TokenLParen), inner);
      AfterTwo(Name(field), Word(TokenRParen), rest);
    }
  }

  lemma AggregateStep(kind: QueryType, word: Token, field: Tokens, aggField: string, entity: string, clauses: Tokens)
    requires var from := [Word(TokenFrom)] + ([Name(entity)] + clauses);
      ParseAggregateField(Blank(kind), field + from) == Ok((Blank(kind).(aggField := aggField), from))
    ensures ParseAggregate(kind, [word] + (field + ([Word(TokenFrom)] + ([Name(entity)] + clauses))))
         == ParseClauses(Blank(kind).(aggField := aggField, entity := entity), clauses)
  {
    var from := [Word(TokenFrom)] + ([Name(entity)] + clauses);
    AfterOne(word, field + from);
    AfterOne(Word(TokenFrom), [Name(entity)] + clauses);
    AfterOne(Name(entity), clauses);
  }

  lemma AggregateParses(q: Query)
    requires q.kind !in {QuerySelect, QueryUpdate, QueryDelete} && WritableQuery(q)
    ensures ParseAggregate(q.kind, RenderQuery(q)) == Accepted(q)
    ensures Kind(RenderQuery(q)) == AggregateWord(q.kind).kind
  {
    var clauses := RenderClauses(q, [END]);
    var from := [Word(TokenFrom)] + ([Name(q.entity)] + clauses);
    AfterOne(Word(TokenFrom), [Name(q.entity)] + clauses);
    ClausesParse(q, [END]);
    var field := if q.aggField == "" then [] else [Word(TokenLParen), Name(q.aggField), Word(TokenRParen)];
    if q.kind == QueryCount {
      assert field + from == from;
    } else {
      AggregateFieldParses(Blank(q.kind), q.aggField, from);
    }
    AggregateStep(q.kind, AggregateWord(q.kind), field, q.aggField, q.entity, clauses);
    AggregateText(q, field, clauses);
  }

  lemma AggregateText(q: Query, field: Tokens, clauses: Tokens)
    requires q.kind !in {QuerySelect, QueryUpdate, QueryDelete}
    requires field == if q.aggField == "" then [] else [Word(TokenLParen), Name(q.aggField), Word(TokenRParen)]
    ensures RenderHead(q) + clauses
         == [AggregateWord(q.kind)] + (field + ([Word(TokenFrom)] + ([Name(q.entity)] + clauses)))
  {
  }

  /** Every query the language can spell parses back to itself when its groups nest at most ten
      deep, and is rejected for its nesting otherwise. */
  lemma QueryParses(q: Query)
    requires WritableQuery(q)
    ensures ParseQuery(RenderQuery(q))
         == if QueryNesting(q) <= MAX_DEPTH then Ok(q) else Err(NestedGroupDepth(MAX_DEPTH))
  {
    if q.kind == QuerySelect {
      SelectParses(q);
      Dispatched(RenderQuery(q), Accepted(q));
    } else if q.kind == QueryUpdate {
      UpdateQueryParses(q);
      Dispatched(RenderQuery(q), Accepted(q));
    } else if q.kind == QueryDelete {
      DeleteQueryParses(q);
      Dispatched(RenderQuery(q), Accepted(q));
    } else {
      AggregateParses(q);
      AggregateDispatch(q.kind, RenderQuery(q));
    }
  }

  lemma Dispatched(ts: Tokens, r: Result<Query, ParseError>)
    requires || (Kind(ts) == TokenSelect && ParseSelect(ts) == r)
             || (Kind(ts) == TokenUpdate && ParseUpdate(ts) == r)
             || (Kind(ts) == TokenDelete && ParseDelete(ts) == r)
    ensures ParseQuery(ts) == r
  {
  }

  lemma AggregateDispatch(kind: QueryType, ts: Tokens)
    requires kind !in {QuerySelect, QueryUpdate, QueryDelete} && Kind(ts) == AggregateWord(kind).kind
    ensures ParseQuery(ts) == ParseAggregate(kind, ts)
  {
  }
}
