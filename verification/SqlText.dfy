/** Emitted SQL as characters: quoted identifiers (quoteIdent) and placeholders. A delimited
    identifier is read as SQL-92 (ISO/IEC 9075:1992), section 5.2 says: a doubled quote inside
    stands for one. */
module SqlText {
  import opened Results
  import opened SqlReader
  import opened Truth
  import Decimal
  import Strings
  import QueryAst
  import SqlCompiler
  import Placeholders
  import MeaningPreserved

  // ----- quoting -----

  function Doubled(s: string): string {
    if s == "" then "" else (if s[0] == '"' then "\"\"" else [s[0]]) + Doubled(s[1..])
  }

  function Quoted(part: string): string {
    ['"'] + Doubled(part) + ['"']
  }

  function AllQuoted(parts: seq<string>): (r: seq<string>)
    ensures |r| == |parts|
  {
    if parts == [] then [] else [Quoted(parts[0])] + AllQuoted(parts[1..])
  }

  function QuoteIdent(name: string): string {
    if '.' in name then Strings.Join(AllQuoted(Strings.Split(name, '.')), '.') else Quoted(name)
  }

  /** The split, the quoting of every part in place, and the join. */
  method QuoteIdentifier(name: string) returns (text: string)
    ensures text == QuoteIdent(name)
  {
    if '.' !in name {
      return Quoted(name);
    }
    var parts := Strings.Split(name, '.');
    ghost var quoted := AllQuoted(parts);
    ghost var original := parts;
    for i := 0 to |parts|
      invariant |parts| == |original|
      invariant parts[..i] + AllQuoted(parts[i..]) == quoted
    {
      QuotedStep(parts, i);
      parts := parts[i := Quoted(parts[i])];
    }
    assert parts[..|parts|] + [] == parts;
    text := Strings.Join(parts, '.');
  }

  lemma QuotedStep(parts: seq<string>, i: nat)
    requires i < |parts|
    ensures var after := parts[i := Quoted(parts[i])];
      parts[..i] + AllQuoted(parts[i..]) == after[..i + 1] + AllQuoted(after[i + 1..])
  {
    var after := parts[i := Quoted(parts[i])];
    assert parts[i..][1..] == after[i + 1..];
    assert after[..i + 1] == parts[..i] + [Quoted(parts[i])];
  }

  // ----- reading a name back -----

  /** The rest of a delimited identifier after its opening quote, and what follows it. */
  function ReadDelimited(s: string): (r: Option<(string, string)>)
    ensures r.Some? ==> |r.value.1| < |s|
  {
    if s == "" then None
    else if s[0] != '"' then
      var r :- ReadDelimited(s[1..]);
      Some(([s[0]] + r.0, r.1))
    else if |s| > 1 && s[1] == '"' then
      var r :- ReadDelimited(s[2..]);
      Some((['"'] + r.0, r.1))
    else Some(("", s[1..]))
  }

  /** Delimited identifiers separated by periods. */
  function ReadName(s: string): Option<(seq<string>, string)>
    decreases |s|
  {
    if s == "" || s[0] != '"' then None else
    var r :- ReadDelimited(s[1..]);
    if r.1 != "" && r.1[0] == '.' then
      var more :- ReadName(r.1[1..]);
      Some(([r.0] + more.0, more.1))
    else Some(([r.0], r.1))
  }

  predicate NoQuote(rest: string) {
    rest == "" || rest[0] != '"'
  }

  lemma {:induction false} DelimitedReads(part: string, rest: string)
    requires NoQuote(rest)
    ensures ReadDelimited(Doubled(part) + (['"'] + rest)) == Some((part, rest))
    decreases |part|
  {
    if part == "" {
      assert Doubled(part) + (['"'] + rest) == ['"'] + rest;
      assert (['"'] + rest)[1..] == rest;
    } else {
      var more := Doubled(part[1..]) + (['"'] + rest);
      DelimitedReads(part[1..], rest);
      DoubledStep(part, ['"'] + rest);
      assert [part[0]] + part[1..] == part;
      if part[0] == '"' {
        assert ("\"\"" + more)[2..] == more;
      } else {
        assert ([part[0]] + more)[1..] == more;
      }
    }
  }

  lemma DoubledStep(part: string, rest: string)
    requires part != ""
    ensures Doubled(part) + rest == (if part[0] == '"' then "\"\"" else [part[0]]) + (Doubled(part[1..]) + rest)
  {
  }

  lemma QuotedReads(part: string, rest: string)
    requires NoQuote(rest)
    ensures var s := Quoted(part) + rest;
      s[0] == '"' && ReadDelimited(s[1..]) == Some((part, rest))
  {
    DelimitedReads(part, rest);
    assert (Quoted(part) + rest)[1..] == Doubled(part) + (['"'] + rest);
  }

  lemma JoinNext(parts: seq<string>, rest: string)
    requires |parts| > 1
    ensures Strings.Join(parts, '.') + rest == parts[0] + (['.'] + (Strings.Join(parts[1..], '.') + rest))
  {
  }

  lemma {:induction false} PartsRead(parts: seq<string>, rest: string)
    requires parts != [] && NoQuote(rest) && (rest == "" || rest[0] != '.')
    ensures ReadName(Strings.Join(AllQuoted(parts), '.') + rest) == Some((parts, rest))
    decreases |parts|
  {
    if |parts| == 1 {
      QuotedReads(parts[0], rest);
      assert AllQuoted(parts) == [Quoted(parts[0])];
      assert [parts[0]] == parts;
    } else {
      var more := Strings.Join(AllQuoted(parts[1..]), '.') + rest;
      PartsRead(parts[1..], rest);
      JoinNext(AllQuoted(parts), rest);
      QuotedReads(parts[0], ['.'] + more);
      NameNext(Quoted(parts[0]) + (['.'] + more), parts, more, rest);
    }
  }

  lemma NameNext(s: string, parts: seq<string>, more: string, rest: string)
    requires s != "" && s[0] == '"' && parts != [] && ReadDelimited(s[1..]) == Some((parts[0], ['.'] + more))
    requires ReadName(more) == Some((parts[1..], rest))
    ensures ReadName(s) == Some((parts, rest))
  {
    assert (['.'] + more)[1..] == more;
    assert [parts[0]] + parts[1..] == parts;
  }

  /** Whatever characters a name holds, its quoted text is read as exactly its dotted parts. */
  lemma NameReads(name: string, rest: string)
    requires NoQuote(rest) && (rest == "" || rest[0] != '.')
    ensures ReadName(QuoteIdent(name) + rest) == Some((Strings.Split(name, '.'), rest))
  {
    var parts := if '.' in name then Strings.Split(name, '.') else [name];
    if '.' !in name {
      assert Strings.Join([name], '.') == name;
      Strings.SplitJoin([name], '.');
      assert AllQuoted([name]) == [Quoted(name)];
    }
    PartsRead(parts, rest);
  }

  /** So different names are quoted differently. */
  lemma QuotingIsInjective(a: string, b: string)
    requires QuoteIdent(a) == QuoteIdent(b)
    ensures a == b
  {
    NameReads(a, "");
    NameReads(b, "");
    Strings.JoinSplit(a, '.');
    Strings.JoinSplit(b, '.');
  }

  // ----- tokens as text -----

  function FuncText(f: Func): string {
    match f
    case Count => "COUNT" case Sum => "SUM" case Avg => "AVG" case Min => "MIN" case Max => "MAX" case Now => "NOW"
    case ArrayAppend => "array_append" case ArrayRemove => "array_remove"
    case ToTsquery => "to_tsquery" case PhrasetoTsquery => "phraseto_tsquery" case PlaintoTsquery => "plainto_tsquery"
  }

  function ComparisonText(op: Comparison): string {
    match op
    case Equal => "=" case NotEqual => "!=" case Greater => ">" case GreaterOrEqual => ">="
    case Less => "<" case LessOrEqual => "<="
  }

  function TokText(t: Tok): string {
    match t
    case Ident(name) => QuoteIdent(name)
    case Ph(i) => "$" + Decimal.PrintNat(i)
    case Number(n) => Decimal.Print(n)
    case SimpleLit => "'simple'"
    case FuncName(f) => FuncText(f)
    case Cmp(op) => ComparisonText(op)
    case LParen => "(" case RParen => ")" case Comma => "," case Star => "*" case Plus => "+" case Minus => "-"
    case AtGt => "@>" case AsJsonb => "::jsonb" case TsMatch => "@@"
    case KwAnd => "AND" case KwOr => "OR" case KwNot => "NOT" case KwIn => "IN" case KwIs => "IS" case KwNull => "NULL"
    case KwBetween => "BETWEEN" case KwLike => "LIKE" case KwILike => "ILIKE" case KwTrue => "TRUE"
    case KwFalse => "FALSE"
    case KwSelect => "SELECT" case KwFrom => "FROM" case KwWhere => "WHERE" case KwGroup => "GROUP"
    case KwOrder => "ORDER"
    case KwBy => "BY" case KwHaving => "HAVING" case KwAsc => "ASC" case KwDesc => "DESC" case KwLimit => "LIMIT"
    case KwOffset => "OFFSET" case KwUpdate => "UPDATE" case KwSet => "SET" case KwDelete => "DELETE"
  }

  /** The tokens in order, with one space after each. */
  function Text(ts: Sql): string {
    if ts == [] then "" else TokText(ts[0]) + ([' '] + Text(ts[1..]))
  }

  // ----- what SQL writes -----

  /** The word or symbol of a token that is no name, placeholder or number. */
  function SqlWord(t: Tok): string {
    match t
    case KwSelect => "SELECT" case KwUpdate => "UPDATE" case KwDelete => "DELETE" case KwSet => "SET"
    case KwFrom => "FROM" case KwWhere => "WHERE" case KwGroup => "GROUP" case KwHaving => "HAVING"
    case KwOrder => "ORDER" case KwBy => "BY" case KwAsc => "ASC" case KwDesc => "DESC"
    case KwLimit => "LIMIT" case KwOffset => "OFFSET"
    case KwAnd => "AND" case KwOr => "OR" case KwNot => "NOT" case KwTrue => "TRUE" case KwFalse => "FALSE"
    case KwIs => "IS" case KwNull => "NULL" case KwIn => "IN" case KwBetween => "BETWEEN"
    case KwLike => "LIKE" case KwILike => "ILIKE"
    case Cmp(Equal) => "=" case Cmp(NotEqual) => "!="
    case Cmp(Less) => "<" case Cmp(LessOrEqual) => "<="
    case Cmp(Greater) => ">" case Cmp(GreaterOrEqual) => ">="
    case LParen => "(" case RParen => ")" case Comma => "," case Star => "*" case Plus => "+" case Minus => "-"
    case AtGt => "@>" case AsJsonb => "::jsonb" case TsMatch => "@@" case SimpleLit => "'simple'"
    case FuncName(Count) => "COUNT" case FuncName(Sum) => "SUM" case FuncName(Avg) => "AVG"
    case FuncName(Min) => "MIN" case FuncName(Max) => "MAX" case FuncName(Now) => "NOW"
    case FuncName(ArrayAppend) => "array_append" case FuncName(ArrayRemove) => "array_remove"
    case FuncName(ToTsquery) => "to_tsquery" case FuncName(PhrasetoTsquery) => "phraseto_tsquery"
    case FuncName(PlaintoTsquery) => "plainto_tsquery"
    case Ident(_) => "" case Ph(_) => "" case Number(_) => ""
  }

  /** A name between double quotes, part by part; a placeholder's number after a dollar sign; a decimal
      number; or the word of SQL. */
  predicate IsWritten(t: Tok, text: string) {
    match t
    case Ident(name) => ReadName(text) == Some((Strings.Split(name, '.'), ""))
    case Ph(i) => |text| > 1 && text[0] == '$' && Decimal.AllDigits(text[1..]) && Decimal.ReadNat(text[1..]) == i
    case Number(n) => text == Decimal.Print(n)
    case _ => text == SqlWord(t)
  }

  function Sentence(words: seq<string>): string {
    if words == [] then "" else words[0] + ([' '] + Sentence(words[1..]))
  }

  function TokTexts(ts: Sql): (words: seq<string>)
    ensures |words| == |ts|
  {
    seq(|ts|, i requires 0 <= i < |ts| => TokText(ts[i]))
  }

  lemma TokIsWritten(t: Tok)
    ensures IsWritten(t, TokText(t))
  {
    if t.Ident? {
      NameReads(t.name, "");
      assert QuoteIdent(t.name) + "" == QuoteIdent(t.name);
    } else if t.Ph? {
      Decimal.ReadPrintedNat(t.index);
      assert TokText(t)[1..] == Decimal.PrintNat(t.index);
    } else if !t.Number? {
      WordIsWritten(t);
    }
  }

  lemma WordIsWritten(t: Tok)
    requires !t.Ident? && !t.Ph? && !t.Number?
    ensures TokText(t) == SqlWord(t)
  {
  }

  /** The text of emitted tokens is their SQL words, one after the other with a space after each. */
  lemma {:induction false} TextIsWritten(ts: Sql)
    ensures Text(ts) == Sentence(TokTexts(ts)) && forall i :: 0 <= i < |ts| ==> IsWritten(ts[i], TokTexts(ts)[i])
    decreases |ts|
  {
    if ts != [] {
      TextIsWritten(ts[1..]);
      assert TokTexts(ts)[1..] == TokTexts(ts[1..]);
      forall i | 0 <= i < |ts|
        ensures IsWritten(ts[i], TokTexts(ts)[i])
      {
        TokIsWritten(ts[i]);
      }
    }
  }

  // ----- placeholders in the text -----

  function DigitRun(s: string): (n: nat)
    ensures n <= |s| && forall i :: 0 <= i < n ==> Decimal.IsDigit(s[i])
  {
    if s != "" && Decimal.IsDigit(s[0]) then 1 + DigitRun(s[1..]) else 0
  }

  /** The numbers of the placeholders outside quoted identifiers, from left to right. */
  function Scan(s: string): seq<nat>
    decreases |s|
  {
    if s == "" then []
    else if s[0] == '"' then
      var r := ReadDelimited(s[1..]);
      if r.Some? then Scan(r.value.1) else []
    else if s[0] == '$' && DigitRun(s[1..]) > 0 then
      var n := DigitRun(s[1..]);
      [Decimal.ReadNat(s[1..1 + n])] + Scan(s[1 + n..])
    else Scan(s[1..])
  }

  /** Text that neither opens a quote nor starts a placeholder. */
  predicate Inert(s: string) {
    forall i :: 0 <= i < |s| ==> s[i] != '"' && s[i] != '$'
  }

  lemma {:induction false} ScanInert(s: string, rest: string)
    requires Inert(s)
    ensures Scan(s + rest) == Scan(rest)
    decreases |s|
  {
    if s == "" {
      assert s + rest == rest;
    } else {
      assert (s + rest)[1..] == s[1..] + rest;
      ScanInert(s[1..], rest);
    }
  }

  lemma ScanQuoted(part: string, rest: string)
    requires NoQuote(rest)
    ensures Scan(Quoted(part) + rest) == Scan(rest)
  {
    QuotedReads(part, rest);
  }

  lemma {:induction false} ScanParts(parts: seq<string>, rest: string)
    requires parts != [] && NoQuote(rest)
    ensures Scan(Strings.Join(AllQuoted(parts), '.') + rest) == Scan(rest)
    decreases |parts|
  {
    if |parts| == 1 {
      assert AllQuoted(parts) == [Quoted(parts[0])];
      ScanQuoted(parts[0], rest);
    } else {
      var more := Strings.Join(AllQuoted(parts[1..]), '.') + rest;
      ScanParts(parts[1..], rest);
      JoinNext(AllQuoted(parts), rest);
      ScanQuoted(parts[0], ['.'] + more);
      ScanInert(['.'], more);
    }
  }

  lemma {:induction false} RunOfDigits(digits: string, rest: string)
    requires (forall i :: 0 <= i < |digits| ==> Decimal.IsDigit(digits[i])) && (rest == "" || !Decimal.IsDigit(rest[0]))
    ensures DigitRun(digits + rest) == |digits|
    decreases |digits|
  {
    if digits == "" {
      assert digits + rest == rest;
    } else {
      assert (digits + rest)[1..] == digits[1..] + rest;
      RunOfDigits(digits[1..], rest);
    }
  }

  lemma ScanPlaceholder(i: nat, rest: string)
    requires rest == "" || !Decimal.IsDigit(rest[0])
    ensures Scan(TokText(Ph(i)) + rest) == [i] + Scan(rest)
  {
    var digits := Decimal.PrintNat(i);
    var s := TokText(Ph(i)) + rest;
    assert s[1..] == digits + rest;
    RunOfDigits(digits, rest);
    assert s[1..1 + |digits|] == digits && s[1 + |digits|..] == rest;
    Decimal.ReadPrintedNat(i);
  }

  lemma ScanName(name: string, rest: string)
    requires NoQuote(rest)
    ensures Scan(QuoteIdent(name) + rest) == Scan(rest)
  {
    if '.' in name {
      ScanParts(Strings.Split(name, '.'), rest);
    } else {
      ScanQuoted(name, rest);
    }
  }

  /** Words of search conditions. */
  predicate IsConditionWord(t: Tok) {
    t in {KwAnd, KwOr, KwNot, KwIn, KwIs, KwNull, KwBetween, KwLike, KwILike, KwTrue, KwFalse}
  }

  /** Words of statements and their clauses. */
  predicate IsStatementWord(t: Tok) {
    t in {KwSelect, KwFrom, KwWhere, KwGroup, KwOrder, KwBy, KwHaving, KwAsc, KwDesc, KwLimit, KwOffset, KwUpdate,
          KwSet, KwDelete}
  }

  lemma ConditionWordInert(t: Tok)
    requires IsConditionWord(t)
    ensures Inert(TokText(t))
  {
  }

  lemma StatementWordInert(t: Tok)
    requires IsStatementWord(t)
    ensures Inert(TokText(t))
  {
  }

  lemma SymbolInert(t: Tok)
    requires !t.Ident? && !t.Ph? && !t.Number? && !t.FuncName? && !IsConditionWord(t) && !IsStatementWord(t)
    ensures Inert(TokText(t))
  {
  }

  lemma AggregateInert(f: Func)
    requires f in {Count, Sum, Avg, Min, Max, Now}
    ensures Inert(FuncText(f))
  {
  }

  lemma ArrayFuncInert(f: Func)
    requires f in {ArrayAppend, ArrayRemove}
    ensures Inert(FuncText(f))
  {
  }

  lemma SearchFuncInert(f: Func)
    requires f in {ToTsquery, PhrasetoTsquery, PlaintoTsquery}
    ensures Inert(FuncText(f))
  {
  }

  lemma FuncInert(f: Func)
    ensures Inert(FuncText(f))
  {
    if f in {ArrayAppend, ArrayRemove} {
      ArrayFuncInert(f);
    } else if f in {ToTsquery, PhrasetoTsquery, PlaintoTsquery} {
      SearchFuncInert(f);
    } else {
      AggregateInert(f);
    }
  }

  lemma OthersInert(t: Tok)
    requires !t.Ident? && !t.Ph?
    ensures Inert(TokText(t))
  {
    if t.FuncName? {
      FuncInert(t.f);
    } else if IsConditionWord(t) {
      ConditionWordInert(t);
    } else if IsStatementWord(t) {
      StatementWordInert(t);
    } else if !t.Number? {
      SymbolInert(t);
    }
  }

  lemma ScanToken(t: Tok, rest: string)
    requires rest != "" && rest[0] == ' '
    ensures Scan(TokText(t) + rest) == (if t.Ph? then [t.index] else []) + Scan(rest)
  {
    if t.Ident? {
      ScanName(t.name, rest);
    } else if t.Ph? {
      ScanPlaceholder(t.index, rest);
    } else {
      OthersInert(t);
      ScanInert(TokText(t), rest);
    }
  }

  /** The placeholders found in the text are the placeholder tokens, whatever the identifiers hold. */
  lemma {:induction false} ScanText(ts: Sql)
    ensures Scan(Text(ts)) == Placeholders.Numbers(ts)
    decreases |ts|
  {
    if ts != [] {
      var rest := Text(ts[1..]);
      ScanText(ts[1..]);
      ScanToken(ts[0], [' '] + rest);
      ScanInert([' '], rest);
    }
  }

  /** The text of a compiled query holds $1 to $n outside its quoted identifiers, each once and in
      order, for n parameters. */
  lemma PlaceholdersInText(entities: map<string, QueryAst.EntityMeta>, q: QueryAst.Query)
    requires SqlCompiler.CompileQuery(entities, q).Ok?
    ensures var p := SqlCompiler.CompileQuery(entities, q).value;
      Scan(Text(p.sql)) == MeaningPreserved.Range(0, |p.args|) && p.args == Placeholders.QueryArgs(q)
  {
    ScanText(SqlCompiler.CompileQuery(entities, q).value.sql);
    Placeholders.PlaceholdersInStep(entities, q);
  }
}
