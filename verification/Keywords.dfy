/** The keywords of the language, whatever the case of their letters, and that the lexer's table
    holds exactly these. */
module Keywords {
  import opened QueryTokens
  import Columns
  import Lexer

  /** The word that a token of this type is written with, if it is a keyword. */
  function KeywordText(kind: TokenType): string {
    match kind
    case TokenSelect => "select" case TokenUpdate => "update" case TokenDelete => "delete"
    case TokenCount => "count" case TokenSum => "sum" case TokenAvg => "avg" case TokenMin => "min"
    case TokenMax => "max"
    case TokenFrom => "from" case TokenWhere => "where" case TokenGroup => "group" case TokenHaving => "having"
    case TokenOrder => "order" case TokenBy => "by" case TokenAsc => "asc" case TokenDesc => "desc"
    case TokenLimit => "limit" case TokenOffset => "offset" case TokenWith => "with"
    case TokenInclude => "include" case TokenSet => "set"
    case TokenAnd => "and" case TokenOr => "or" case TokenNot => "not" case TokenIn => "in" case TokenIs => "is"
    case TokenBetween => "between"
    case TokenNull => "null" case TokenTrue => "true" case TokenFalse => "false"
    case TokenLike => "like" case TokenILike => "ilike" case TokenContains => "contains"
    case TokenStartsWith => "startswith" case TokenEndsWith => "endswith"
    case _ => ""
  }

  /** A word, in any case of letters, is the keyword it spells, and a name if it spells none. */
  ghost predicate Means(w: string, kind: TokenType) {
    var small := Columns.Smalls(w);
    if kind == TokenIdent then forall k :: KeywordText(k) != "" ==> KeywordText(k) != small
    else KeywordText(kind) != "" && KeywordText(kind) == small
  }

  // ----- the lexer's table -----

  predicate LowerCase(s: string) {
    forall i :: 0 <= i < |s| ==> 'a' <= s[i] <= 'z'
  }

  lemma {:induction false} LowerStays(s: string)
    requires LowerCase(s)
    ensures Lexer.ToLower(s) == s
    decreases |s|
  {
    if s != "" {
      LowerStays(s[1..]);
    }
  }

  /** Where a keyword stands in the table. */
  function Place(kind: TokenType): nat {
    match kind
    case TokenSelect => 0 case TokenCount => 1 case TokenSum => 2 case TokenAvg => 3 case TokenMin => 4
    case TokenMax => 5 case TokenUpdate => 6 case TokenDelete => 7 case TokenFrom => 8 case TokenWhere => 9
    case TokenAnd => 10 case TokenOr => 11 case TokenNot => 12 case TokenIn => 13 case TokenIs => 14
    case TokenNull => 15 case TokenOrder => 16 case TokenBy => 17 case TokenAsc => 18 case TokenDesc => 19
    case TokenLimit => 20 case TokenOffset => 21 case TokenWith => 22 case TokenInclude => 23 case TokenSet => 24
    case TokenTrue => 25 case TokenFalse => 26 case TokenLike => 27 case TokenILike => 28 case TokenBetween => 29
    case TokenHaving => 30 case TokenGroup => 31 case TokenContains => 32 case TokenStartsWith => 33
    case TokenEndsWith => 34
    case _ => Lexer.KEYWORD_COUNT
  }

  predicate IsWord(kind: TokenType) {
    Place(kind) < Lexer.KEYWORD_COUNT
  }

  /** A keyword's place, told by its length and first letters. */
  function PlaceOf(w: string): nat {
    if |w| < 2 then 0 else
    var c, d := w[0], w[1];
    if |w| == 2 then (if c == 'o' then 11 else if c == 'b' then 17 else if d == 'n' then 13 else 14)
    else if |w| == 3 then ThreeLetters(c, d)
    else if |w| == 4 then
      (if c == 'f' then 8 else if c == 'n' then 15 else if c == 'd' then 19 else if c == 'w' then 22
       else if c == 't' then 25 else 27)
    else if |w| == 5 then
      (if c == 'c' then 1 else if c == 'w' then 9 else if c == 'o' then 16 else if c == 'l' then 20
       else if c == 'f' then 26 else if c == 'i' then 28 else 31)
    else if |w| == 6 then
      (if c == 's' then 0 else if c == 'u' then 6 else if c == 'd' then 7 else if c == 'o' then 21 else 30)
    else if |w| == 7 then (if c == 'i' then 23 else 29)
    else if |w| == 8 then (if c == 'c' then 32 else 34)
    else 33
  }

  function ThreeLetters(c: char, d: char): nat {
    if c == 's' then (if d == 'u' then 2 else 24)
    else if c == 'a' then (if d == 'v' then 3 else if d == 'n' then 10 else 18)
    else if c == 'm' then (if d == 'i' then 4 else 5)
    else 12
  }

  /** The spelling has small letters only, and tells the place. */
  predicate SpelledAt(kind: TokenType, place: nat) {
    Spelling(kind) != "" && LowerCase(Spelling(kind)) && PlaceOf(Spelling(kind)) == place
  }

  /** Words that begin a query. */
  predicate IsVerb(kind: TokenType) {
    kind in {TokenSelect, TokenCount, TokenSum, TokenAvg, TokenMin, TokenMax, TokenUpdate, TokenDelete}
  }

  /** Words that begin a clause on rows. */
  predicate IsRowClause(kind: TokenType) {
    kind in {TokenFrom, TokenWhere, TokenOrder, TokenGroup, TokenHaving}
  }

  /** Words that begin other clauses: bounds, relations, assignments. */
  predicate IsOtherClause(kind: TokenType) {
    kind in {TokenLimit, TokenOffset, TokenWith, TokenInclude, TokenSet}
  }

  /** Words inside ORDER BY, and literals. */
  predicate IsOrderOrLiteral(kind: TokenType) {
    kind in {TokenBy, TokenAsc, TokenDesc, TokenTrue, TokenFalse, TokenNull}
  }

  /** Words that join or negate conditions, and tests of values. */
  predicate IsConnective(kind: TokenType) {
    kind in {TokenAnd, TokenOr, TokenNot, TokenIn, TokenIs, TokenBetween}
  }

  /** Words that test a text. */
  predicate IsTextTest(kind: TokenType) {
    kind in {TokenLike, TokenILike, TokenContains, TokenStartsWith, TokenEndsWith}
  }

  /** The keyword stands in its place, and its spelling tells it. */
  predicate Listed(kind: TokenType) {
    IsWord(kind) && Lexer.KeywordAt(Place(kind)) == kind && SpelledAt(kind, Place(kind))
  }

  lemma VerbListed(kind: TokenType)
    requires IsVerb(kind)
    ensures Listed(kind)
  {
  }

  lemma RowClauseListed(kind: TokenType)
    requires IsRowClause(kind)
    ensures Listed(kind)
  {
  }

  lemma OtherClauseListed(kind: TokenType)
    requires IsOtherClause(kind)
    ensures Listed(kind)
  {
  }

  lemma OrderOrLiteralListed(kind: TokenType)
    requires IsOrderOrLiteral(kind)
    ensures Listed(kind)
  {
  }

  lemma ConnectiveListed(kind: TokenType)
    requires IsConnective(kind)
    ensures Listed(kind)
  {
  }

  lemma TextTestListed(kind: TokenType)
    requires IsTextTest(kind)
    ensures Listed(kind)
  {
  }

  lemma WordClass(kind: TokenType)
    requires IsWord(kind)
    ensures IsVerb(kind) || IsRowClause(kind) || IsOtherClause(kind) || IsOrderOrLiteral(kind) || IsConnective(kind)
            || IsTextTest(kind)
  {
  }

  lemma WordListed(kind: TokenType)
    requires IsWord(kind)
    ensures Listed(kind)
  {
    WordClass(kind);
    if IsVerb(kind) {
      VerbListed(kind);
    } else if IsRowClause(kind) {
      RowClauseListed(kind);
    } else if IsOtherClause(kind) {
      OtherClauseListed(kind);
    } else if IsOrderOrLiteral(kind) {
      OrderOrLiteralListed(kind);
    } else if IsConnective(kind) {
      ConnectiveListed(kind);
    } else {
      TextTestListed(kind);
    }
  }

  lemma KeywordPlaced(i: nat)
    requires i < Lexer.KEYWORD_COUNT
    ensures Place(Lexer.KeywordAt(i)) == i
  {
  }

  lemma SpelledWords(i: nat)
    requires i < Lexer.KEYWORD_COUNT
    ensures SpelledAt(Lexer.KeywordAt(i), i)
  {
    KeywordPlaced(i);
    WordListed(Lexer.KeywordAt(i));
  }

  /** No earlier keyword of the table is spelled like this one. */
  lemma {:induction false} WordFound(i: nat, from: nat)
    requires from <= i < Lexer.KEYWORD_COUNT
    ensures Lexer.Lookup(from, Spelling(Lexer.KeywordAt(i))) == Lexer.KeywordAt(i)
    decreases i - from
  {
    SpelledWords(i);
    SpelledWords(from);
    if from < i {
      WordFound(i, from + 1);
    }
  }

  lemma WordLookup(kind: TokenType)
    requires IsWord(kind)
    ensures Spelling(kind) != "" && LowerCase(Spelling(kind))
    ensures Lexer.Lookup(0, Lexer.ToLower(Spelling(kind))) == kind
  {
    WordListed(kind);
    SpelledWords(Place(kind));
    LowerStays(Spelling(kind));
    WordFound(Place(kind), 0);
  }

  // ----- the two are one -----

  lemma {:induction false} LowerIsSmall(w: string)
    ensures Lexer.ToLower(w) == Columns.Smalls(w)
    decreases |w|
  {
    if w != "" {
      LowerIsSmall(w[1..]);
      Columns.SmallsPush(w[0], w[1..]);
      assert w == [w[0]] + w[1..];
    }
  }

  lemma SameText(kind: TokenType)
    ensures KeywordText(kind) == if IsWord(kind) then Spelling(kind) else ""
  {
  }

  lemma {:induction false} LookupIsSpelled(i: nat, w: string)
    requires i <= Lexer.KEYWORD_COUNT
    ensures Lexer.Lookup(i, w) == TokenIdent
         || (IsWord(Lexer.Lookup(i, w)) && Spelling(Lexer.Lookup(i, w)) == w)
    decreases Lexer.KEYWORD_COUNT - i
  {
    if i < Lexer.KEYWORD_COUNT {
      KeywordPlaced(i);
      LookupIsSpelled(i + 1, w);
    }
  }

  lemma FoundMeans(w: string)
    ensures Means(w, Lexer.Lookup(0, Columns.Smalls(w)))
  {
    var small := Columns.Smalls(w);
    LookupIsSpelled(0, small);
    SameText(Lexer.Lookup(0, small));
    if Lexer.Lookup(0, small) == TokenIdent {
      forall k | KeywordText(k) != ""
        ensures KeywordText(k) != small
      {
        SameText(k);
        if KeywordText(k) == small {
          SpelledIsFound(k, small);
        }
      }
    } else {
      SpelledIsFound(Lexer.Lookup(0, small), small);
    }
  }

  lemma MeaningIsFound(w: string, kind: TokenType)
    requires Means(w, kind)
    ensures Lexer.Lookup(0, Columns.Smalls(w)) == kind
  {
    var small := Columns.Smalls(w);
    SameText(kind);
    if kind == TokenIdent {
      LookupIsSpelled(0, small);
      SameText(Lexer.Lookup(0, small));
      if Lexer.Lookup(0, small) != TokenIdent {
        SpelledIsFound(Lexer.Lookup(0, small), small);
      }
    } else {
      SpelledIsFound(kind, small);
    }
  }

  /** The lexer takes a word for a keyword exactly if it is one, in any case of letters. */
  lemma MeansExactly(w: string, kind: TokenType)
    ensures Lexer.KeywordKind(Lexer.ToLower(w)) == kind <==> Means(w, kind)
  {
    LowerIsSmall(w);
    FoundMeans(w);
    if Means(w, kind) {
      MeaningIsFound(w, kind);
    }
  }

  lemma SpelledIsFound(kind: TokenType, w: string)
    requires IsWord(kind) && Spelling(kind) == w
    ensures Lexer.Lookup(0, w) == kind && w != ""
  {
    WordLookup(kind);
    LowerStays(w);
  }
}
