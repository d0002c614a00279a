/** The grammar of whole queries, and that the parser accepts nothing else. */
module QueryGrammar {
  import opened Results
  import opened QueryAst
  import opened QueryTokens
  import opened QueryParser
  import opened ParserRoundTrip
  import opened Grammar
  import FilterRoundTrip
  import Decimal

  // ----- lists -----

  predicate IsName(t: Token, name: string) {
    IdentifierOrKeyword(t.kind) && t.text == name
  }

  /** Names with commas between them, and perhaps one at the end. */
  predicate IsNames(ts: Tokens, names: seq<string>)
    decreases |names|
  {
    if names == [] then ts == []
    else ts != [] && IsName(ts[0], names[0]) && GoesOn(ts[1..], names) && IsNames(AfterComma(ts[1..]), names[1..])
  }

  /** A field, and perhaps its direction; without one it is ascending. */
  predicate IsOrder(ts: Tokens, o: OrderClause) {
    && ts != [] && IsName(ts[0], o.field)
    && if |ts| == 1 then o.direction == Ascending
       else |ts| == 2 && ts[1].kind == (if o.direction == Descending then TokenDesc else TokenAsc)
  }

  ghost predicate IsOrders(ts: Tokens, os: seq<OrderClause>)
    decreases |os|
  {
    if os == [] then ts == []
    else exists a: Tokens, b: Tokens ::
      ts == a + b && IsOrder(a, os[0]) && GoesOn(b, os) && IsOrders(AfterComma(b), os[1..])
  }

  ghost predicate IsUpdate(ts: Tokens, u: UpdateSet) {
    |ts| > 2 && IsName(ts[0], u.field) && ts[1].kind == TokenEquals && IsValue(ts[2..], u.value) && u.op == SetValue
  }

  ghost predicate IsUpdates(ts: Tokens, us: seq<UpdateSet>)
    decreases |us|
  {
    if us == [] then ts == []
    else exists a: Tokens, b: Tokens ::
      ts == a + b && IsUpdate(a, us[0]) && GoesOn(b, us) && IsUpdates(AfterComma(b), us[1..])
  }

  // ----- clauses -----

  /** The word may stand there or not. */
  predicate IsOptional(ts: Tokens, kind: TokenType) {
    ts == [] || (|ts| == 1 && ts[0].kind == kind)
  }

  /** One clause, and what it makes of a query. */
  ghost predicate IsPart(ts: Tokens, q: Query, q': Query) {
    ts != [] &&
    var keyword, body := ts[0].kind, ts[1..];
    || (keyword in {TokenWith, TokenInclude} && exists names ::
          names != [] && IsNames(body, names) && q' == q.(includes := names))
    || (keyword in {TokenGroup, TokenGroupBy} && exists filler: Tokens, list: Tokens, names ::
          body == filler + list && IsOptional(filler, TokenBy) && (keyword == TokenGroupBy ==> filler == [])
          && names != [] && IsNames(list, names)
          && q' == q.(groupBy := names))
    || (keyword == TokenOrder && exists filler: Tokens, list: Tokens, orders ::
          body == filler + list && IsOptional(filler, TokenBy) && orders != [] && IsOrders(list, orders)
          && q' == q.(orderBy := orders))
    || (keyword == TokenWhere && exists w :: IsClause(body, w) && q' == q.(where := Some(w)))
    || (keyword == TokenHaving && exists w :: IsClause(body, w) && q' == q.(having := Some(w)))
    || (keyword in {TokenLimit, TokenOffset} && exists n ::
          |body| == 1 && body[0].kind == TokenNumber && Decimal.ParseInt64(body[0].text) == Some(n)
          && q' == if keyword == TokenLimit then q.(limit := Some(n)) else q.(offset := Some(n)))
  }

  ghost predicate IsParts(ts: Tokens, q: Query, q': Query)
    decreases |ts|
  {
    if ts == [] then q' == q
    else exists a: Tokens, b: Tokens, middle: Query ::
      ts == a + b && a != [] && IsPart(a, q, middle) && IsParts(b, middle, q')
  }

  // ----- statements and filters -----

  /** The head of a statement, and the query it begins. */
  ghost predicate IsHead(ts: Tokens, q: Query) {
    match q.kind
    case QuerySelect =>
      exists select: Token, list: Tokens, from: Tokens, entity: Token ::
        ts == [select] + list + from + [entity] && select.kind == TokenSelect && IsNames(list, q.fields)
        && IsOptional(from, TokenFrom) && entity.kind == TokenIdent
        && q == Blank(QuerySelect).(fields := q.fields, entity := entity.text)
    case QueryUpdate =>
      exists list: Tokens ::
        |ts| > 3 && list == ts[3..] && ts[0].kind == TokenUpdate && ts[1].kind == TokenIdent && ts[2].kind == TokenSet
        && q.updates != [] && IsUpdates(list, q.updates)
        && q == Blank(QueryUpdate).(updates := q.updates, entity := ts[1].text)
    case QueryDelete =>
      exists delete: Token, from: Tokens, entity: Token ::
        ts == [delete] + from + [entity] && delete.kind == TokenDelete && IsOptional(from, TokenFrom)
        && entity.kind == TokenIdent && q == Blank(QueryDelete).(entity := entity.text)
    case _ => IsAggregateHead(ts, q)
  }

  ghost predicate IsAggregateHead(ts: Tokens, q: Query) {
    exists verb: Token, field: Tokens, from: Tokens, entity: Token ::
      ts == [verb] + field + from + [entity] && verb.kind == Verb(q.kind) && IsAggregateField(field, q)
      && IsOptional(from, TokenFrom) && entity.kind == TokenIdent
      && q == Blank(q.kind).(aggField := q.aggField, entity := entity.text)
  }

  function Verb(kind: QueryType): TokenType {
    match kind
    case QuerySelect => TokenSelect
    case QueryCount => TokenCount
    case QuerySum => TokenSum
    case QueryAvg => TokenAvg
    case QueryMin => TokenMin
    case QueryMax => TokenMax
    case QueryUpdate => TokenUpdate
    case QueryDelete => TokenDelete
  }

  /** Only an aggregate other than COUNT has a field, in parentheses. */
  predicate IsAggregateField(ts: Tokens, q: Query) {
    || (ts == [] && q.aggField == "")
    || (|ts| == 3 && q.kind != QueryCount && ts[0].kind == TokenLParen && ts[1].kind == TokenIdent
        && ts[2].kind == TokenRParen && q.aggField == ts[1].text)
  }

  ghost predicate IsStatement(ts: Tokens, q: Query) {
    exists head: Tokens, tail: Tokens, begun :: ts == head + tail && IsHead(head, begun) && IsParts(tail, begun, q)
  }

  // ----- names, orderings and assignments are read so -----

  lemma {:induction false} NamesSound(ts: Tokens, first: bool) returns (used: Tokens)
    requires ParseIdents(ts, first).Ok?
    ensures ts == used + ParseIdents(ts, first).value.1 && IsNames(used, ParseIdents(ts, first).value.0)
    ensures first ==> ParseIdents(ts, first).value.0 != []
    decreases |ts|
  {
    if !IdentifierOrKeyword(Kind(ts)) {
      used := [];
    } else {
      NamesParse1(ts, first);
      var after := Next(ts);
      if Kind(after) == TokenComma {
        var more := NamesSound(Next(after), false);
        used := [ts[0], after[0]] + more;
        assert used[1..] == [after[0]] + more && AfterComma(used[1..]) == more;
        assert ts == [ts[0], after[0]] + Next(after);
        Consumed(ts, [ts[0], after[0]], Next(after), more, ParseIdents(Next(after), false).value.1);
        var names := ParseIdents(Next(after), false).value.0;
        assert ([ts[0].text] + names)[1..] == names;
      } else {
        used := [ts[0]];
        assert [ts[0].text][1..] == [] && used[1..] == [];
      }
    }
  }

  lemma {:induction false} NamesParse1(ts: Tokens, first: bool)
    requires IdentifierOrKeyword(Kind(ts)) && ParseIdents(ts, first).Ok?
    ensures ts != []
    ensures if Kind(Next(ts)) != TokenComma then ParseIdents(ts, first).value == ([ts[0].text], Next(ts))
            else ParseIdents(Next(Next(ts)), false).Ok?
                 && ParseIdents(ts, first).value == ([ts[0].text] + ParseIdents(Next(Next(ts)), false).value.0,
                                                     ParseIdents(Next(Next(ts)), false).value.1)
  {
    assert [ts[0].text] + [] == [ts[0].text];
  }

  lemma {:induction false} ListUsed(ts: Tokens, a: Tokens, after: Tokens, more: Tokens, rest: Tokens)
    requires ts == a + after && after != [] && after[1..] == more + rest
    ensures ts == a + ([after[0]] + more) + rest
  {
  }

  lemma {:induction false} OrderSound(ts: Tokens) returns (used: Tokens)
    requires IdentifierOrKeyword(Kind(ts)) && Kind(ts) != TokenEOF
    ensures ts == used + ParseOrder(ts).1 && IsOrder(used, ParseOrder(ts).0)
  {
    used := if Kind(Next(ts)) in {TokenAsc, TokenDesc} then [ts[0], ts[1]] else [ts[0]];
  }

  lemma {:induction false} OrdersSound(ts: Tokens, first: bool) returns (used: Tokens)
    requires ParseOrders(ts, first).Ok?
    ensures ts == used + ParseOrders(ts, first).value.1 && IsOrders(used, ParseOrders(ts, first).value.0)
    ensures first ==> ParseOrders(ts, first).value.0 != []
    decreases |ts|
  {
    if !IdentifierOrKeyword(Kind(ts)) {
      used := [];
    } else {
      var a := OrderSound(ts);
      var o := ParseOrder(ts);
      OrdersParse1(ts, first);
      if Kind(o.1) == TokenComma {
        var more := OrdersSound(Next(o.1), false);
        used := a + ([o.1[0]] + more);
        OrdersJoin(a, o.1[0], more, o.0, ParseOrders(Next(o.1), false).value.0);
        ListUsed(ts, a, o.1, more, ParseOrders(Next(o.1), false).value.1);
      } else {
        used := a;
        OneOrder(a, o.0);
      }
    }
  }

  lemma {:induction false} OrdersParse1(ts: Tokens, first: bool)
    requires IdentifierOrKeyword(Kind(ts)) && Kind(ts) != TokenEOF && ParseOrders(ts, first).Ok?
    ensures var o := ParseOrder(ts);
      if Kind(o.1) != TokenComma then ParseOrders(ts, first).value == ([o.0], o.1)
      else ParseOrders(Next(o.1), false).Ok?
           && ParseOrders(ts, first).value
              == ([o.0] + ParseOrders(Next(o.1), false).value.0, ParseOrders(Next(o.1), false).value.1)
  {
    assert [ParseOrder(ts).0] + [] == [ParseOrder(ts).0];
  }

  lemma {:induction false} OneOrder(a: Tokens, o: OrderClause)
    requires IsOrder(a, o)
    ensures IsOrders(a, [o])
  {
    assert a == a + [] && [o][1..] == [] && GoesOn([], [o]);
  }

  lemma {:induction false} OrdersJoin(a: Tokens, comma: Token, more: Tokens, o: OrderClause, os: seq<OrderClause>)
    requires IsOrder(a, o) && comma.kind == TokenComma && IsOrders(more, os)
    ensures IsOrders(a + ([comma] + more), [o] + os)
  {
    assert ([o] + os)[1..] == os && AfterComma([comma] + more) == more;
    assert GoesOn([comma] + more, [o] + os);
  }

  lemma {:induction false} UpdateSound(ts: Tokens) returns (used: Tokens)
    requires IdentifierOrKeyword(Kind(ts)) && Kind(ts) != TokenEOF && ParseUpdateSet(ts).Ok?
    ensures ts == used + ParseUpdateSet(ts).value.1 && IsUpdate(used, ParseUpdateSet(ts).value.0)
  {
    var after := Next(Next(ts));
    UpdateParse1(ts, after);
    var value := ValueSound(after);
    used := [ts[0], ts[1]] + value;
    Consumed(ts, [ts[0], ts[1]], after, value, ParseValue(after).value.1);
    OneAssignment(ts[0], ts[1], value, ParseUpdateSet(ts).value.0);
  }

  lemma {:induction false} UpdateParse1(ts: Tokens, after: Tokens)
    requires IdentifierOrKeyword(Kind(ts)) && Kind(ts) != TokenEOF && ParseUpdateSet(ts).Ok?
    requires after == Next(Next(ts))
    ensures |ts| > 1 && ts == [ts[0], ts[1]] + after && ts[1].kind == TokenEquals && ParseValue(after).Ok?
    ensures ParseUpdateSet(ts).value
         == (UpdateSet(ts[0].text, ParseValue(after).value.0, SetValue), ParseValue(after).value.1)
  {
  }

  lemma {:induction false} OneAssignment(word: Token, equals: Token, value: Tokens, u: UpdateSet)
    requires IdentifierOrKeyword(word.kind) && equals.kind == TokenEquals
    requires u == UpdateSet(word.text, u.value, SetValue) && IsValue(value, u.value)
    ensures IsUpdate([word, equals] + value, u)
  {
    ValueIsThere(value, u.value);
    assert ([word, equals] + value)[2..] == value;
  }

  lemma {:induction false} ValueIsThere(ts: Tokens, v: Value)
    requires IsValue(ts, v)
    ensures ts != []
  {
  }

  lemma {:induction false} UpdatesParse1(ts: Tokens, first: bool)
    requires IdentifierOrKeyword(Kind(ts)) && Kind(ts) != TokenEOF && ParseUpdates(ts, first).Ok?
    ensures ParseUpdateSet(ts).Ok?
    ensures var u := ParseUpdateSet(ts).value;
      if Kind(u.1) != TokenComma then ParseUpdates(ts, first).value == ([u.0], u.1)
      else ParseUpdates(Next(u.1), false).Ok?
           && ParseUpdates(ts, first).value
              == ([u.0] + ParseUpdates(Next(u.1), false).value.0, ParseUpdates(Next(u.1), false).value.1)
  {
    if ParseUpdateSet(ts).Ok? {
      assert [ParseUpdateSet(ts).value.0] + [] == [ParseUpdateSet(ts).value.0];
    }
  }

  lemma {:induction false} OneUpdate(a: Tokens, u: UpdateSet)
    requires IsUpdate(a, u)
    ensures IsUpdates(a, [u])
  {
    assert a == a + [] && [u][1..] == [] && GoesOn([], [u]);
  }

  lemma {:induction false} UpdatesJoin(a: Tokens, comma: Token, more: Tokens, u: UpdateSet, us: seq<UpdateSet>)
    requires IsUpdate(a, u) && comma.kind == TokenComma && IsUpdates(more, us)
    ensures IsUpdates(a + ([comma] + more), [u] + us)
  {
    assert ([u] + us)[1..] == us && AfterComma([comma] + more) == more;
    assert GoesOn([comma] + more, [u] + us);
  }

  lemma {:induction false} UpdatesSound(ts: Tokens, first: bool) returns (used: Tokens)
    requires ParseUpdates(ts, first).Ok?
    ensures ts == used + ParseUpdates(ts, first).value.1 && IsUpdates(used, ParseUpdates(ts, first).value.0)
    ensures first ==> ParseUpdates(ts, first).value.0 != []
    decreases |ts|
  {
    if !IdentifierOrKeyword(Kind(ts)) {
      used := [];
    } else {
      UpdatesParse1(ts, first);
      var a := UpdateSound(ts);
      var u := ParseUpdateSet(ts).value;
      if Kind(u.1) == TokenComma {
        var more := UpdatesSound(Next(u.1), false);
        used := a + ([u.1[0]] + more);
        UpdatesJoin(a, u.1[0], more, u.0, ParseUpdates(Next(u.1), false).value.0);
        ListUsed(ts, a, u.1, more, ParseUpdates(Next(u.1), false).value.1);
      } else {
        used := a;
        OneUpdate(a, u.0);
        assert ParseUpdates(ts, first).value == ([u.0], u.1);
      }
    }
  }

  // ----- clauses are read so -----

  lemma {:induction false} BySound(ts: Tokens) returns (filler: Tokens)
    ensures ts == filler + SkipBy(ts) && IsOptional(filler, TokenBy)
  {
    filler := if Kind(ts) == TokenBy then [ts[0]] else [];
  }

  lemma {:induction false} NamesPart(keyword: Token, filler: Tokens, list: Tokens, names: seq<string>, q: Query)
    requires names != [] && IsNames(list, names) && IsOptional(filler, TokenBy)
    requires keyword.kind in {TokenWith, TokenInclude, TokenGroup, TokenGroupBy}
    requires keyword.kind != TokenGroup ==> filler == []
    ensures IsPart([keyword] + (filler + list), q,
                   if keyword.kind in {TokenWith, TokenInclude} then q.(includes := names) else q.(groupBy := names))
  {
    assert ([keyword] + (filler + list))[1..] == filler + list;
    assert filler == [] ==> filler + list == list;
  }

  lemma {:induction false} OrderPart(keyword: Token, filler: Tokens, list: Tokens, orders: seq<OrderClause>, q: Query)
    requires keyword.kind == TokenOrder && orders != [] && IsOrders(list, orders) && IsOptional(filler, TokenBy)
    ensures IsPart([keyword] + (filler + list), q, q.(orderBy := orders))
  {
    assert ([keyword] + (filler + list))[1..] == filler + list;
  }

  lemma {:induction false} FilterPart(keyword: Token, body: Tokens, w: WhereClause, q: Query)
    requires keyword.kind in {TokenWhere, TokenHaving} && IsClause(body, w)
    ensures IsPart([keyword] + body, q,
                   if keyword.kind == TokenWhere then q.(where := Some(w)) else q.(having := Some(w)))
  {
    assert ([keyword] + body)[1..] == body;
  }

  lemma {:induction false} BoundPart(keyword: Token, number: Token, n: int, q: Query)
    requires keyword.kind in {TokenLimit, TokenOffset} && number.kind == TokenNumber
    requires Decimal.ParseInt64(number.text) == Some(n)
    ensures IsPart([keyword] + [number], q,
                   if keyword.kind == TokenLimit then q.(limit := Some(n)) else q.(offset := Some(n)))
  {
    assert ([keyword] + [number])[1..] == [number];
  }

  lemma {:induction false} PartUsed(ts: Tokens, filler: Tokens, middle: Tokens, list: Tokens, rest: Tokens)
    requires ts != [] && ts[1..] == filler + middle && middle == list + rest
    ensures ts == [ts[0]] + (filler + list) + rest
  {
  }

  lemma {:induction false} FillerSound(ts: Tokens) returns (filler: Tokens)
    ensures Next(ts) == filler + (if Kind(ts) == TokenGroup then SkipBy(Next(ts)) else Next(ts))
    ensures IsOptional(filler, TokenBy) && (Kind(ts) != TokenGroup ==> filler == [])
  {
    if Kind(ts) == TokenGroup {
      filler := BySound(Next(ts));
    } else {
      filler := [];
    }
  }

  lemma {:induction false} NamesParse2(q: Query, keyword: TokenType, rest: Tokens, list: Tokens)
    requires keyword in {TokenWith, TokenInclude, TokenGroup, TokenGroupBy} && ParseNames(q, keyword, rest).Ok?
    requires list == if keyword == TokenGroup then SkipBy(rest) else rest
    ensures ParseIdents(list, true).Ok?
    ensures ParseNames(q, keyword, rest).value == (
      if keyword in {TokenWith, TokenInclude} then q.(includes := ParseIdents(list, true).value.0)
      else q.(groupBy := ParseIdents(list, true).value.0), ParseIdents(list, true).value.1)
  {
  }

  lemma {:induction false} NamesPartSound(q: Query, ts: Tokens) returns (used: Tokens)
    requires Kind(ts) in {TokenWith, TokenInclude, TokenGroup, TokenGroupBy} && ParseNames(q, Kind(ts), Next(ts)).Ok?
    ensures var p := ParseNames(q, Kind(ts), Next(ts)).value;
      ts == used + p.1 && used != [] && IsPart(used, q, p.0)
  {
    var rest := if Kind(ts) == TokenGroup then SkipBy(Next(ts)) else Next(ts);
    var filler := FillerSound(ts);
    NamesParse2(q, Kind(ts), Next(ts), rest);
    var list := NamesSound(rest, true);
    var names := ParseIdents(rest, true).value;
    used := [ts[0]] + (filler + list);
    NamesPart(ts[0], filler, list, names.0, q);
    PartUsed(ts, filler, rest, list, names.1);
  }

  lemma {:induction false} OrderPartSound(q: Query, ts: Tokens) returns (used: Tokens)
    requires Kind(ts) == TokenOrder && ParseOrderBy(q, Next(ts)).Ok?
    ensures var p := ParseOrderBy(q, Next(ts)).value; ts == used + p.1 && used != [] && IsPart(used, q, p.0)
  {
    var rest := SkipBy(Next(ts));
    var filler := BySound(Next(ts));
    var list := OrdersSound(rest, true);
    var orders := ParseOrders(rest, true).value;
    used := [ts[0]] + (filler + list);
    OrderPart(ts[0], filler, list, orders.0, q);
    PartUsed(ts, filler, rest, list, orders.1);
  }

  lemma {:induction false} FilterPartSound(q: Query, ts: Tokens) returns (used: Tokens)
    requires Kind(ts) in {TokenWhere, TokenHaving} && ParseFilter(q, Kind(ts), Next(ts)).Ok?
    ensures var p := ParseFilter(q, Kind(ts), Next(ts)).value; ts == used + p.1 && used != [] && IsPart(used, q, p.0)
  {
    var body := ClauseSound(Next(ts), 0);
    var w := ParseWhere(Next(ts), 0).value;
    used := [ts[0]] + body;
    FilterPart(ts[0], body, w.0, q);
    Consumed(ts, [ts[0]], Next(ts), body, w.1);
  }

  lemma {:induction false} BoundPartSound(q: Query, ts: Tokens) returns (used: Tokens)
    requires Kind(ts) in {TokenLimit, TokenOffset} && ParseBound(q, Kind(ts), Next(ts)).Ok?
    ensures var p := ParseBound(q, Kind(ts), Next(ts)).value; ts == used + p.1 && used != [] && IsPart(used, q, p.0)
  {
    var n := ParseInt(Next(ts)).value;
    used := [ts[0]] + [ts[1]];
    BoundPart(ts[0], ts[1], n.0, q);
  }

  lemma {:induction false} PartSound(q: Query, ts: Tokens) returns (used: Tokens)
    requires ParseClause(q, ts).Ok?
    ensures var p := ParseClause(q, ts).value; ts == used + p.1 && used != [] && IsPart(used, q, p.0)
  {
    if Kind(ts) in {TokenWith, TokenInclude, TokenGroup, TokenGroupBy} {
      used := NamesPartSound(q, ts);
    } else if Kind(ts) in {TokenWhere, TokenHaving} {
      used := FilterPartSound(q, ts);
    } else if Kind(ts) == TokenOrder {
      used := OrderPartSound(q, ts);
    } else {
      used := BoundPartSound(q, ts);
    }
  }

  lemma {:induction false} PartsParse1(q: Query, ts: Tokens)
    requires Kind(ts) != TokenEOF && ParseClauses(q, ts).Ok?
    ensures ParseClause(q, ts).Ok?
    ensures ParseClauses(q, ts) == ParseClauses(ParseClause(q, ts).value.0, ParseClause(q, ts).value.1)
  {
  }

  lemma {:induction false} PartsJoin(a: Tokens, b: Tokens, q: Query, middle: Query, q': Query)
    requires a != [] && IsPart(a, q, middle) && IsParts(b, middle, q')
    ensures IsParts(a + b, q, q')
  {
  }

  lemma {:induction false} PartsSound(q: Query, ts: Tokens) returns (used: Tokens, rest: Tokens)
    requires ParseClauses(q, ts).Ok?
    ensures ts == used + rest && Kind(rest) == TokenEOF && IsParts(used, q, ParseClauses(q, ts).value)
    decreases |ts|
  {
    if Kind(ts) == TokenEOF {
      used, rest := [], ts;
    } else {
      PartsParse1(q, ts);
      var a := PartSound(q, ts);
      var p := ParseClause(q, ts).value;
      var more;
      more, rest := PartsSound(p.0, p.1);
      used := a + more;
      Consumed(ts, a, p.1, more, rest);
      PartsJoin(a, more, q, p.0, ParseClauses(q, ts).value);
    }
  }

  // ----- statements are read so -----

  lemma {:induction false} StatementOf(head: Tokens, tail: Tokens, begun: Query, q: Query)
    requires IsHead(head, begun) && IsParts(tail, begun, q)
    ensures IsStatement(head + tail, q)
  {
  }

  lemma {:induction false} FromSound(ts: Tokens) returns (from: Tokens)
    ensures ts == from + SkipFrom(ts) && IsOptional(from, TokenFrom)
  {
    from := if Kind(ts) == TokenFrom then [ts[0]] else [];
  }

  lemma {:induction false} EntitySound(q: Query, ts: Tokens)
    requires ParseEntity(q, ts).Ok?
    ensures ts != [] && ts[0].kind == TokenIdent && ts == [ts[0]] + ts[1..]
    ensures ParseEntity(q, ts) == Ok((q.(entity := ts[0].text), ts[1..]))
  {
  }

  /** What follows the field list, or the verb, of a statement: FROM perhaps, the entity, the clauses. */
  lemma {:induction false} RestSound(
    q: Query, ts: Tokens)
    returns (from: Tokens, entity: Token, tail: Tokens, rest: Tokens)
    requires ParseEntity(q, SkipFrom(ts)).Ok?
    requires var named := ParseEntity(q, SkipFrom(ts)).value; ParseClauses(named.0, named.1).Ok?
    ensures ts == from + ([entity] + (tail + rest)) && IsOptional(from, TokenFrom) && entity.kind == TokenIdent
    ensures Kind(rest) == TokenEOF
    ensures var named := ParseEntity(q, SkipFrom(ts)).value;
      named.0 == q.(entity := entity.text) && IsParts(tail, named.0, ParseClauses(named.0, named.1).value)
  {
    from := FromSound(ts);
    EntitySound(q, SkipFrom(ts));
    var named := ParseEntity(q, SkipFrom(ts)).value;
    entity := SkipFrom(ts)[0];
    tail, rest := PartsSound(named.0, named.1);
  }

  lemma {:induction false} SelectHead(select: Token, list: Tokens, from: Tokens, entity: Token, fields: seq<string>)
    requires select.kind == TokenSelect && IsNames(list, fields) && IsOptional(from, TokenFrom)
    requires entity.kind == TokenIdent
    ensures IsHead([select] + list + from + [entity], Blank(QuerySelect).(fields := fields, entity := entity.text))
  {
  }

  predicate HasList(body: Tokens) {
    Kind(body) == TokenIdent && Current(body).text != "*" && Peek(body).kind in {TokenComma, TokenFrom}
  }

  /** The fields of a SELECT and what follows them. */
  function FieldList(body: Tokens): Parsed<seq<string>> {
    if HasList(body) then ParseIdents(body, true) else Ok(([], body))
  }

  lemma {:induction false} FieldListSound(body: Tokens) returns (list: Tokens)
    requires FieldList(body).Ok?
    ensures body == list + FieldList(body).value.1 && IsNames(list, FieldList(body).value.0)
  {
    if HasList(body) {
      list := NamesSound(body, true);
    } else {
      list := [];
    }
  }

  lemma {:induction false} SelectParse(ts: Tokens)
    requires ParseSelect(ts).Ok?
    ensures FieldList(Next(ts)).Ok?
    ensures var fields := FieldList(Next(ts)).value; var q := Blank(QuerySelect).(fields := fields.0);
      ParseEntity(q, SkipFrom(fields.1)).Ok?
      && ParseSelect(ts) == ParseClauses(ParseEntity(q, SkipFrom(fields.1)).value.0,
                                         ParseEntity(q, SkipFrom(fields.1)).value.1)
  {
  }

  lemma {:induction false} FourParts(
    ts: Tokens, list: Tokens, after: Tokens, from: Tokens, entity: Token, tail: Tokens, rest: Tokens, head: Tokens)
    requires ts != [] && ts[1..] == list + after && after == from + ([entity] + (tail + rest))
    requires head == [ts[0]] + list + from + [entity]
    ensures ts == head + tail + rest
  {
  }

  lemma {:induction false} SelectSound(ts: Tokens) returns (used: Tokens, rest: Tokens)
    requires Kind(ts) == TokenSelect && ParseSelect(ts).Ok?
    ensures ts == used + rest && Kind(rest) == TokenEOF && IsStatement(used, ParseSelect(ts).value)
  {
    SelectParse(ts);
    var fields := FieldList(Next(ts)).value;
    var list := FieldListSound(Next(ts));
    var from, entity, tail;
    from, entity, tail, rest := RestSound(Blank(QuerySelect).(fields := fields.0), fields.1);
    var head := [ts[0]] + list + from + [entity];
    SelectHead(ts[0], list, from, entity, fields.0);
    StatementOf(head, tail, Blank(QuerySelect).(fields := fields.0, entity := entity.text), ParseSelect(ts).value);
    used := head + tail;
    FourParts(ts, list, fields.1, from, entity, tail, rest, head);
  }

  lemma {:induction false} AggregateHead(verb: Token, field: Tokens, from: Tokens, entity: Token, q: Query)
    requires q.kind !in {QuerySelect, QueryUpdate, QueryDelete} && verb.kind == Verb(q.kind)
    requires IsAggregateField(field, q) && IsOptional(from, TokenFrom) && entity.kind == TokenIdent
    requires q == Blank(q.kind).(aggField := q.aggField, entity := entity.text)
    ensures IsHead([verb] + field + from + [entity], q)
  {
    assert IsAggregateHead([verb] + field + from + [entity], q);
  }

  lemma {:induction false} FieldSound(kind: QueryType, ts: Tokens) returns (field: Tokens)
    requires ParseAggregateField(Blank(kind), ts).Ok?
    ensures var p := ParseAggregateField(Blank(kind), ts).value;
      ts == field + p.1 && IsAggregateField(field, p.0) && p.0 == Blank(kind).(aggField := p.0.aggField)
  {
    if kind == QueryCount || Kind(ts) != TokenLParen {
      field := [];
    } else {
      field := [ts[0], ts[1], ts[2]];
    }
  }

  lemma {:induction false} AggregateSound(kind: QueryType, ts: Tokens) returns (used: Tokens, rest: Tokens)
    requires kind !in {QuerySelect, QueryUpdate, QueryDelete} && Kind(ts) == Verb(kind) && ts != []
    requires ParseAggregate(kind, ts).Ok?
    ensures ts == used + rest && Kind(rest) == TokenEOF && IsStatement(used, ParseAggregate(kind, ts).value)
  {
    var field := FieldSound(kind, Next(ts));
    var p := ParseAggregateField(Blank(kind), Next(ts)).value;
    var from, entity, tail;
    from, entity, tail, rest := RestSound(p.0, p.1);
    var head := [ts[0]] + field + from + [entity];
    AggregateHead(ts[0], field, from, entity, p.0.(entity := entity.text));
    StatementOf(head, tail, p.0.(entity := entity.text), ParseAggregate(kind, ts).value);
    used := head + tail;
    FourParts(ts, field, p.1, from, entity, tail, rest, head);
  }

  lemma {:induction false} DeleteHead(delete: Token, from: Tokens, entity: Token)
    requires delete.kind == TokenDelete && IsOptional(from, TokenFrom) && entity.kind == TokenIdent
    ensures IsHead([delete] + from + [entity], Blank(QueryDelete).(entity := entity.text))
  {
  }

  lemma {:induction false} DeleteUsed(ts: Tokens, from: Tokens, entity: Token, tail: Tokens, rest: Tokens)
    requires ts != [] && ts[1..] == from + ([entity] + (tail + rest))
    ensures ts == [ts[0]] + from + [entity] + tail + rest
  {
  }

  lemma {:induction false} DeleteSound(ts: Tokens) returns (used: Tokens, rest: Tokens)
    requires Kind(ts) == TokenDelete && ParseDelete(ts).Ok?
    ensures ts == used + rest && Kind(rest) == TokenEOF && IsStatement(used, ParseDelete(ts).value)
  {
    var from, entity, tail;
    from, entity, tail, rest := RestSound(Blank(QueryDelete), Next(ts));
    var head := [ts[0]] + from + [entity];
    DeleteHead(ts[0], from, entity);
    StatementOf(head, tail, Blank(QueryDelete).(entity := entity.text), ParseDelete(ts).value);
    used := head + tail;
    DeleteUsed(ts, from, entity, tail, rest);
  }

  lemma {:induction false} UpdateHead(update: Token, entity: Token, set_: Token, list: Tokens, us: seq<UpdateSet>)
    requires update.kind == TokenUpdate && entity.kind == TokenIdent && set_.kind == TokenSet
    requires us != [] && list != [] && IsUpdates(list, us)
    ensures IsHead([update, entity, set_] + list, Blank(QueryUpdate).(updates := us, entity := entity.text))
  {
    assert ([update, entity, set_] + list)[3..] == list;
  }

  lemma {:induction false} UpdatesAreThere(ts: Tokens, us: seq<UpdateSet>)
    requires us != [] && IsUpdates(ts, us)
    ensures ts != []
  {
  }

  lemma {:induction false} UpdateParse(ts: Tokens)
    requires Kind(ts) == TokenUpdate && ParseUpdate(ts).Ok?
    ensures |ts| > 2 && ts[1].kind == TokenIdent && ts[2].kind == TokenSet && ParseUpdates(ts[3..], true).Ok?
    ensures var us := ParseUpdates(ts[3..], true).value;
      ParseUpdate(ts) == ParseClauses(Blank(QueryUpdate).(entity := ts[1].text, updates := us.0), us.1)
  {
  }

  lemma {:induction false} UpdateStatementSound(ts: Tokens) returns (used: Tokens, rest: Tokens)
    requires Kind(ts) == TokenUpdate && ParseUpdate(ts).Ok?
    ensures ts == used + rest && Kind(rest) == TokenEOF && IsStatement(used, ParseUpdate(ts).value)
  {
    UpdateParse(ts);
    var list := UpdatesSound(ts[3..], true);
    var us := ParseUpdates(ts[3..], true).value;
    var begun := Blank(QueryUpdate).(entity := ts[1].text, updates := us.0);
    var tail;
    tail, rest := PartsSound(begun, us.1);
    UpdatesAreThere(list, us.0);
    var head := [ts[0], ts[1], ts[2]] + list;
    UpdateHead(ts[0], ts[1], ts[2], list, us.0);
    StatementOf(head, tail, begun, ParseUpdate(ts).value);
    used := head + tail;
    UpdateUsed(ts, list, us.1, tail, rest);
  }

  lemma {:induction false} UpdateUsed(ts: Tokens, list: Tokens, after: Tokens, tail: Tokens, rest: Tokens)
    requires |ts| > 2 && ts[3..] == list + after && after == tail + rest
    ensures ts == [ts[0], ts[1], ts[2]] + list + tail + rest
  {
  }

  // ----- simple filters are read so -----

  /** A phrase, a fuzzy term, a group, a flag, with or without a NOT that does nothing, or a test. */
  ghost predicate IsFilter(ts: Tokens, c: Condition) {
    || (|ts| == 1 && ts[0].kind == TokenString && c == Leaf("", OpExact, Str(ts[0].text), false))
    || (|ts| == 2 && ts[0].kind == TokenTilde && (IdentifierOrKeyword(ts[1].kind) || ts[1].kind == TokenString)
        && c == Leaf("", OpFuzzy, Str(ts[1].text), false))
    || (exists nots: Tokens, negated: bool, body: Tokens ::
          ts == nots + body && IsNegation(nots, negated) && IsFilterBody(body, negated, c))
  }

  ghost predicate IsFilterBody(body: Tokens, negated: bool, c: Condition) {
    || (exists w :: IsGroup(body, w) && c == Condition("", OpEquals, Null, negated, Some(w)))
    || (|body| == 1 && IdentifierOrKeyword(body[0].kind) && c == Leaf(body[0].text, OpEquals, Bool(true), false))
    || (|body| > 2 && IdentifierOrKeyword(body[0].kind)
        && exists sign ::
             body[1].kind == FilterRoundTrip.SignWord(sign).kind && IsValue(body[2..], c.value)
             && c == Leaf(body[0].text, FilterRoundTrip.SignOperator(sign), c.value, negated))
  }

  ghost predicate IsFilters(ts: Tokens, cs: seq<Condition>)
    decreases |cs|
  {
    if cs == [] then ts == []
    else exists a: Tokens, b: Tokens :: ts == a + b && IsFilter(a, cs[0]) && IsFilters(b, cs[1..])
  }

  lemma {:induction false} SignSound(kind: TokenType) returns (sign: FilterRoundTrip.Sign)
    requires FilterOperator(kind).Some?
    ensures FilterRoundTrip.SignWord(sign).kind == kind
    ensures FilterOperator(kind) == Some(FilterRoundTrip.SignOperator(sign))
  {
    sign := match kind
      case TokenColon => FilterRoundTrip.Colon
      case TokenEquals => FilterRoundTrip.Equal
      case TokenNotEquals => FilterRoundTrip.NotEqual
      case TokenGreater => FilterRoundTrip.Above
      case TokenGreaterEq => FilterRoundTrip.AtLeast
      case TokenLess => FilterRoundTrip.Below
      case _ => FilterRoundTrip.AtMost;
  }

  lemma {:induction false} FilterOf(nots: Tokens, negated: bool, body: Tokens, c: Condition)
    requires IsNegation(nots, negated) && IsFilterBody(body, negated, c)
    ensures IsFilter(nots + body, c)
  {
  }

  lemma {:induction false} TestBody(
    field: Token, sign: Token, value: Tokens, negated: bool, c: Condition, s: FilterRoundTrip.Sign)
    requires IdentifierOrKeyword(field.kind) && sign.kind == FilterRoundTrip.SignWord(s).kind
    requires IsValue(value, c.value) && c == Leaf(field.text, FilterRoundTrip.SignOperator(s), c.value, negated)
    ensures IsFilterBody([field, sign] + value, negated, c)
  {
    ValueIsThere(value, c.value);
    assert ([field, sign] + value)[2..] == value;
  }

  lemma {:induction false} GroupBodyOf(body: Tokens, negated: bool, w: WhereClause)
    requires IsGroup(body, w)
    ensures IsFilterBody(body, negated, Condition("", OpEquals, Null, negated, Some(w)))
  {
  }

  lemma {:induction false} FlagBody(t: Token, negated: bool)
    requires IdentifierOrKeyword(t.kind)
    ensures IsFilterBody([t], negated, Leaf(t.text, OpEquals, Bool(true), false))
  {
  }

  predicate IsTerm(kind: TokenType) {
    kind == TokenString || kind == TokenTilde
  }

  lemma {:induction false} TermSound(ts: Tokens) returns (used: Tokens)
    requires IsTerm(Kind(ts)) && ParseSimpleFilter(ts).Ok?
    ensures ts == used + ParseSimpleFilter(ts).value.1 && IsFilter(used, ParseSimpleFilter(ts).value.0)
  {
    used := if Kind(ts) == TokenString then [ts[0]] else [ts[0], ts[1]];
  }

  lemma {:induction false} FilterGroupSound(ts: Tokens, nots: Tokens, body: Tokens) returns (used: Tokens)
    requires !IsTerm(Kind(ts)) && body == (if Kind(ts) == TokenNot then Next(ts) else ts)
    requires Kind(body) == TokenLParen && ts == nots + body && IsNegation(nots, Kind(ts) == TokenNot)
    requires ParseSimpleFilter(ts).Ok?
    ensures ts == used + ParseSimpleFilter(ts).value.1 && IsFilter(used, ParseSimpleFilter(ts).value.0)
  {
    var group := GroupSound(body, 0);
    var w := ParseGroup(body, 0).value;
    used := nots + group;
    GroupBodyOf(group, Kind(ts) == TokenNot, w.0);
    FilterOf(nots, Kind(ts) == TokenNot, group, ParseSimpleFilter(ts).value.0);
    Consumed(ts, nots, body, group, w.1);
  }

  lemma {:induction false} FilterTestSound(ts: Tokens, nots: Tokens, body: Tokens) returns (used: Tokens)
    requires !IsTerm(Kind(ts)) && body == (if Kind(ts) == TokenNot then Next(ts) else ts)
    requires Kind(body) != TokenLParen && ts == nots + body && IsNegation(nots, Kind(ts) == TokenNot)
    requires ParseSimpleFilter(ts).Ok? && FilterOperator(Kind(Next(body))).Some?
    ensures ts == used + ParseSimpleFilter(ts).value.1 && IsFilter(used, ParseSimpleFilter(ts).value.0)
  {
    var after := Next(Next(body));
    var value := ValueSound(after);
    var c := ParseSimpleFilter(ts).value;
    var sign := SignSound(Kind(Next(body)));
    used := nots + ([body[0], body[1]] + value);
    TestBody(body[0], body[1], value, Kind(ts) == TokenNot, c.0, sign);
    FilterOf(nots, Kind(ts) == TokenNot, [body[0], body[1]] + value, c.0);
    TestUsed(ts, nots, body, value, c.1);
  }

  lemma {:induction false} TestUsed(ts: Tokens, nots: Tokens, body: Tokens, value: Tokens, rest: Tokens)
    requires ts == nots + body && |body| > 1 && body[2..] == value + rest
    ensures ts == nots + ([body[0], body[1]] + value) + rest
  {
  }

  lemma {:induction false} FilterFlagSound(ts: Tokens, nots: Tokens, body: Tokens) returns (used: Tokens)
    requires !IsTerm(Kind(ts)) && body == (if Kind(ts) == TokenNot then Next(ts) else ts)
    requires Kind(body) != TokenLParen && ts == nots + body && IsNegation(nots, Kind(ts) == TokenNot)
    requires ParseSimpleFilter(ts).Ok? && FilterOperator(Kind(Next(body))).None?
    ensures ts == used + ParseSimpleFilter(ts).value.1 && IsFilter(used, ParseSimpleFilter(ts).value.0)
  {
    FlagParse(ts, body);
    used := nots + [body[0]];
    FlagBody(body[0], Kind(ts) == TokenNot);
    FilterOf(nots, Kind(ts) == TokenNot, [body[0]], Leaf(body[0].text, OpEquals, Bool(true), false));
    Consumed(ts, nots, body, [body[0]], body[1..]);
  }

  lemma {:induction false} FlagParse(ts: Tokens, body: Tokens)
    requires !IsTerm(Kind(ts)) && body == (if Kind(ts) == TokenNot then Next(ts) else ts)
    requires Kind(body) != TokenLParen && ParseSimpleFilter(ts).Ok? && FilterOperator(Kind(Next(body))).None?
    ensures body != [] && body == [body[0]] + body[1..] && IdentifierOrKeyword(body[0].kind)
    ensures ParseSimpleFilter(ts) == Ok((Leaf(body[0].text, OpEquals, Bool(true), false), body[1..]))
  {
  }

  lemma {:induction false} FilterSound(ts: Tokens) returns (used: Tokens)
    requires ParseSimpleFilter(ts).Ok?
    ensures ts == used + ParseSimpleFilter(ts).value.1 && IsFilter(used, ParseSimpleFilter(ts).value.0)
  {
    if IsTerm(Kind(ts)) {
      used := TermSound(ts);
    } else {
      var body := if Kind(ts) == TokenNot then Next(ts) else ts;
      var nots := NegationSound(ts);
      if Kind(body) == TokenLParen {
        used := FilterGroupSound(ts, nots, body);
      } else if FilterOperator(Kind(Next(body))).Some? {
        used := FilterTestSound(ts, nots, body);
      } else {
        used := FilterFlagSound(ts, nots, body);
      }
    }
  }

  lemma {:induction false} FiltersParse1(ts: Tokens)
    requires Kind(ts) != TokenEOF && SimpleFilters(ts).Ok?
    ensures ParseSimpleFilter(ts).Ok? && SimpleFilters(ParseSimpleFilter(ts).value.1).Ok?
    ensures SimpleFilters(ts).value
         == [ParseSimpleFilter(ts).value.0] + SimpleFilters(ParseSimpleFilter(ts).value.1).value
  {
  }

  lemma {:induction false} FiltersJoin(a: Tokens, b: Tokens, c: Condition, cs: seq<Condition>)
    requires IsFilter(a, c) && IsFilters(b, cs)
    ensures IsFilters(a + b, [c] + cs)
  {
    assert ([c] + cs)[1..] == cs;
  }

  lemma {:induction false} FiltersSound(ts: Tokens) returns (used: Tokens, rest: Tokens)
    requires SimpleFilters(ts).Ok?
    ensures ts == used + rest && Kind(rest) == TokenEOF && IsFilters(used, SimpleFilters(ts).value)
    decreases |ts|
  {
    if Kind(ts) == TokenEOF {
      used, rest := [], ts;
    } else {
      FiltersParse1(ts);
      var a := FilterSound(ts);
      var c := ParseSimpleFilter(ts).value;
      var more;
      more, rest := FiltersSound(c.1);
      used := a + more;
      Consumed(ts, a, c.1, more, rest);
      FiltersJoin(a, more, c.0, SimpleFilters(c.1).value);
    }
  }

  // ----- whatever is accepted -----

  /** A statement, or filters all of which are required. */
  ghost predicate IsQuery(ts: Tokens, q: Query) {
    || IsStatement(ts, q)
    || (exists cs :: cs != [] && IsFilters(ts, cs)
                     && q == Blank(QuerySelect).(where := Some(WhereClause(cs, LogicalAnd))))
  }

  lemma {:induction false} FiltersAreThere(ts: Tokens)
    requires Kind(ts) != TokenEOF && SimpleFilters(ts).Ok?
    ensures SimpleFilters(ts).value != []
  {
    FiltersParse1(ts);
  }

  lemma {:induction false} FilterQuerySound(ts: Tokens) returns (used: Tokens, rest: Tokens)
    requires Kind(ts) != TokenEOF && ParseSimpleFilters(ts).Ok?
    ensures ts == used + rest && Kind(rest) == TokenEOF && IsQuery(used, ParseSimpleFilters(ts).value)
  {
    FiltersAreThere(ts);
    used, rest := FiltersSound(ts);
  }

  lemma {:induction false} AggregateKind(kind: TokenType) returns (q: QueryType)
    requires kind in {TokenCount, TokenSum, TokenAvg, TokenMin, TokenMax}
    ensures q !in {QuerySelect, QueryUpdate, QueryDelete} && Verb(q) == kind
    ensures forall ts :: Kind(ts) == kind ==> ParseQuery(ts) == ParseAggregate(q, ts)
  {
    q := match kind
      case TokenCount => QueryCount
      case TokenSum => QuerySum
      case TokenAvg => QueryAvg
      case TokenMin => QueryMin
      case _ => QueryMax;
  }

  /** Whatever the parser accepts is a query of the grammar, with nothing left over before the end. */
  lemma {:induction false} AcceptedIsWritten(ts: Tokens) returns (used: Tokens, rest: Tokens)
    requires ParseQuery(ts).Ok?
    ensures ts == used + rest && Kind(rest) == TokenEOF && IsQuery(used, ParseQuery(ts).value)
  {
    if Kind(ts) == TokenSelect {
      used, rest := SelectSound(ts);
    } else if Kind(ts) == TokenUpdate {
      used, rest := UpdateStatementSound(ts);
    } else if Kind(ts) == TokenDelete {
      used, rest := DeleteSound(ts);
    } else if Kind(ts) in {TokenCount, TokenSum, TokenAvg, TokenMin, TokenMax} {
      var kind := AggregateKind(Kind(ts));
      used, rest := AggregateSound(kind, ts);
    } else {
      used, rest := FilterQuerySound(ts);
    }
  }
}
