/** NOT in front of a simple filter (internal/query/parser.go): when it negates, and when it is lost. */
module FilterNegation {
  import opened Results
  import opened QueryAst
  import opened QueryTokens
  import opened QueryParser
  import opened QueryMeaning
  import opened Truth
  import Columns

  /** What the parser can see after the NOT: a group, or a name with an operator behind it. */
  predicate KeepsNot(body: Tokens) {
    Kind(body) == TokenLParen || FilterOperator(Kind(Next(body))).Some?
  }

  function Parsed1(ts: Tokens): Condition
    requires ParseSimpleFilter(ts).Ok?
  {
    ParseSimpleFilter(ts).value.0
  }

  function NotAll(ts: seq<Truth>): (r: seq<Truth>)
    ensures |r| == |ts| && forall i :: 0 <= i < |ts| ==> r[i] == Not(ts[i])
  {
    seq(|ts|, i requires 0 <= i < |ts| => Not(ts[i]))
  }

  /** The condition means the opposite of the same condition without its Not flag. */
  ghost predicate MeansNot(c: Condition, entity: EntityMeta) {
    forall db: Interp, row: Row ::
      ConditionTruth(db, entity, c, row) == NotAll(ConditionTruth(db, entity, c.(negated := false), row))
  }

  lemma NegatedMeansNot(c: Condition, entity: EntityMeta)
    requires c.negated
    ensures MeansNot(c, entity)
  {
    forall db: Interp, row: Row
      ensures ConditionTruth(db, entity, c, row) == NotAll(ConditionTruth(db, entity, c.(negated := false), row))
    {
      if c.nested.Some? {
        assert c.nested == c.(negated := false).nested;
      }
    }
  }

  /** A flag set is not its own opposite: on a row with a value there it is true. */
  lemma FlagIsNotItsOpposite(c: Condition, entity: EntityMeta)
    requires c.field != "" && c == Leaf(c.field, OpEquals, Bool(true), false)
    ensures !MeansNot(c, entity)
  {
    var db := Interp((v, a) => true, (v, a) => true, (v, a) => true,
                     (v, a, b) => true, (v, a, b) => true, (v, a, k) => true);
    var row: Row := map[Columns.FieldColumn(entity, c.field) := Bool(true)];
    assert c.(negated := false) == c;
    assert LeafTruth(db, entity, c, row) == True;
    assert ConditionTruth(db, entity, c, row) == [True];
    assert NotAll([True])[0] == False;
  }

  /** An accepted filter that starts with NOT is negated, in its flag and in its meaning, exactly when
      a group follows or an operator follows the name. */
  lemma NotKeptExactly(ts: Tokens, entity: EntityMeta)
    requires Kind(ts) == TokenNot && ParseSimpleFilter(ts).Ok? && Current(Next(ts)).text != ""
    ensures Parsed1(ts).negated <==> KeepsNot(Next(ts))
    ensures MeansNot(Parsed1(ts), entity) <==> KeepsNot(Next(ts))
  {
    var c := Parsed1(ts);
    if KeepsNot(Next(ts)) {
      NegatedMeansNot(c, entity);
    } else {
      FlagIsNotItsOpposite(c, entity);
    }
  }

  /** Otherwise the NOT changes nothing: the filter is the one without it. */
  lemma LostNotChangesNothing(ts: Tokens)
    requires Kind(ts) == TokenNot && Kind(Next(ts)) !in {TokenNot, TokenString, TokenTilde}
    requires !KeepsNot(Next(ts))
    ensures ParseSimpleFilter(ts) == ParseSimpleFilter(Next(ts))
  {
  }

  /** A name with no operator behind it is a flag to be true, and so is an AND or OR between filters. */
  lemma NameIsAFlag(ts: Tokens)
    requires IdentifierOrKeyword(Kind(ts)) && Kind(ts) != TokenNot && FilterOperator(Kind(Next(ts))).None?
    ensures ParseSimpleFilter(ts) == Ok((Leaf(Current(ts).text, OpEquals, Bool(true), false), Next(ts)))
  {
  }

  lemma OneFilter(ts: Tokens, c: Condition)
    requires Kind(ts) != TokenEOF && ParseSimpleFilter(ts) == Ok((c, [END]))
    ensures ParseSimpleFilters(ts) == Ok(Blank(QuerySelect).(where := Some(WhereClause([c], LogicalAnd))))
  {
    assert Kind([END]) == TokenEOF && SimpleFilters([END]) == Ok([]);
    assert [c] + [] == [c];
  }

  /** `not archived` is the query `archived`: it selects the rows whose flag is true. */
  lemma NotNameSelectsIt(name: string, entity: EntityMeta, db: Interp, row: Row)
    requires name != "" && name !in entity.jsonColumns
    ensures var ts := [Token(TokenNot, "not"), Token(TokenIdent, name), END];
      ParseQuery(ts) == ParseQuery(ts[1..]) && ParseQuery(ts).Ok?
      && ClauseTruth(db, entity, ParseQuery(ts).value.where, row)
         == Some(Compare(db, Equal, Column(row, Columns.FieldColumn(entity, name)), Val(Bool(true))))
  {
    var ts := [Token(TokenNot, "not"), Token(TokenIdent, name), END];
    var body, c := ts[1..], Leaf(name, OpEquals, Bool(true), false);
    assert body == [Token(TokenIdent, name), END] && body[1..] == [END];
    NameIsAFlag(body);
    LostNotChangesNothing(ts);
    OneFilter(ts, c);
    OneFilter(body, c);
    FlagTruth(c, entity, db, row);
  }

  lemma FlagTruth(c: Condition, entity: EntityMeta, db: Interp, row: Row)
    requires c == Leaf(c.field, OpEquals, Bool(true), false) && c.field != "" && c.field !in entity.jsonColumns
    ensures ClauseTruth(db, entity, Some(WhereClause([c], LogicalAnd)), row)
         == Some(Compare(db, Equal, Column(row, Columns.FieldColumn(entity, c.field)), Val(Bool(true))))
  {
    var t := LeafTruth(db, entity, c, row);
    assert [c][1..] == [] && Truths(db, entity, [c], row) == [t] + [] == [t];
  }
}
