/** The lexer (internal/query/tokens.go): what it reads next as a function of the remaining bytes,
    and the class that moves `pos` over the input. Characters stand for bytes. */
module Lexer {
  import opened Results
  import opened QueryTokens
  import Decimal

  /** What is read at the head of a text: a token, and how many characters it takes. */
  datatype Reading = Reading(token: Token, length: nat)

  predicate IsSpace(c: char) {
    c == ' ' || c == '\t' || c == '\r' || c == '\n'
  }

  /** unicode.IsLetter on a single byte: ASCII letters and the letters of Latin-1. */
  predicate IsLetter(c: char) {
    || 'a' <= c <= 'z' || 'A' <= c <= 'Z'
    || c as int == 0xAA || c as int == 0xB5 || c as int == 0xBA
    || (0xC0 <= c as int <= 0xFF && c as int != 0xD7 && c as int != 0xF7)
  }

  predicate IsIdentStart(c: char) {
    IsLetter(c) || c == '_'
  }

  predicate IsIdentChar(c: char) {
    IsLetter(c) || Decimal.IsDigit(c) || c == '_'
  }

  function ToLower(s: string): string {
    if s == "" then ""
    else [if 'A' <= s[0] <= 'Z' then (s[0] as int + 32) as char else s[0]] + ToLower(s[1..])
  }

  const KEYWORD_COUNT: nat := 35

  function KeywordAt(i: nat): TokenType
    requires i < KEYWORD_COUNT
  {
    match i
    case 0 => TokenSelect case 1 => TokenCount case 2 => TokenSum case 3 => TokenAvg case 4 => TokenMin
    case 5 => TokenMax case 6 => TokenUpdate case 7 => TokenDelete case 8 => TokenFrom case 9 => TokenWhere
    case 10 => TokenAnd case 11 => TokenOr case 12 => TokenNot case 13 => TokenIn case 14 => TokenIs
    case 15 => TokenNull case 16 => TokenOrder case 17 => TokenBy case 18 => TokenAsc case 19 => TokenDesc
    case 20 => TokenLimit case 21 => TokenOffset case 22 => TokenWith case 23 => TokenInclude case 24 => TokenSet
    case 25 => TokenTrue case 26 => TokenFalse case 27 => TokenLike case 28 => TokenILike case 29 => TokenBetween
    case 30 => TokenHaving case 31 => TokenGroup case 32 => TokenContains case 33 => TokenStartsWith
    case _ => TokenEndsWith
  }

  /** The keyword spelled `w`, from number `i` of the table on. */
  function Lookup(i: nat, w: string): (kind: TokenType)
    requires i <= KEYWORD_COUNT
    ensures kind !in {TokenString, TokenParam, TokenNumber, TokenEOF, TokenError}
    decreases KEYWORD_COUNT - i
  {
    if i == KEYWORD_COUNT then TokenIdent
    else if w == Spelling(KeywordAt(i)) then KeywordAt(i)
    else Lookup(i + 1, w)
  }

  /** Every other word is an identifier. */
  function KeywordKind(w: string): TokenType {
    Lookup(0, w)
  }

  // ----- the readers -----

  /** The leading characters that satisfy `p`. */
  function TakeWhile(s: string, p: char -> bool): (t: string)
    ensures |t| <= |s|
  {
    if s != "" && p(s[0]) then [s[0]] + TakeWhile(s[1..], p) else ""
  }

  /** How many leading characters are whitespace. */
  function Spaces(s: string): (n: nat)
    ensures n <= |s| && (n < |s| ==> !IsSpace(s[n]))
  {
    if s != "" && IsSpace(s[0]) then 1 + Spaces(s[1..]) else 0
  }

  function Unescaped(c: char): char {
    if c == 'n' then '\n' else if c == 't' then '\t' else if c == 'r' then '\r' else c
  }

  /** A reading after `used` characters that gave `text`. */
  function Prefixed(text: string, used: nat, r: Option<(string, nat)>): Option<(string, nat)> {
    match r
    case Some(q) => Some((text + q.0, used + q.1))
    case None => None
  }

  /** The content after an opening quote, and the characters used up to and with the closing one. */
  function ReadQuoted(s: string, quote: char): (r: Option<(string, nat)>)
    ensures r.Some? ==> 1 <= r.value.1 <= |s|
    decreases |s|
  {
    if s == "" then None
    else if s[0] == quote then Some(("", 1))
    else if s[0] == '\\' && |s| > 1 then Prefixed([Unescaped(s[1])], 2, ReadQuoted(s[2..], quote))
    else Prefixed([s[0]], 1, ReadQuoted(s[1..], quote))
  }

  predicate At(s: string, i: nat, c: char) {
    i < |s| && s[i] == c
  }

  predicate StartsNumber(s: string) {
    s != "" && (Decimal.IsDigit(s[0]) || (s[0] == '-' && |s| > 1 && Decimal.IsDigit(s[1])))
  }

  function Digits(s: string): (t: string)
    ensures |t| <= |s|
  {
    TakeWhile(s, Decimal.IsDigit)
  }

  function Fraction(s: string): (t: string)
    ensures |t| <= |s|
  {
    if At(s, 0, '.') && |s| > 1 && Decimal.IsDigit(s[1]) then [s[0]] + Digits(s[1..]) else ""
  }

  function Exponent(s: string): (t: string)
    ensures |t| <= |s|
  {
    if At(s, 0, 'e') || At(s, 0, 'E') then
      if At(s, 1, '+') || At(s, 1, '-') then [s[0], s[1]] + Digits(s[2..]) else [s[0]] + Digits(s[1..])
    else ""
  }

  function FractionExponent(s: string): (t: string)
    ensures |t| <= |s|
  {
    var fraction := Fraction(s);
    fraction + Exponent(s[|fraction|..])
  }

  function Unsigned(s: string): (t: string)
    ensures |t| <= |s|
    ensures s != "" && Decimal.IsDigit(s[0]) ==> t != ""
  {
    var digits := Digits(s);
    digits + FractionExponent(s[|digits|..])
  }

  /** Sign, digits, an optional fraction, an optional exponent. */
  function Number(s: string): (t: string)
    ensures |t| <= |s|
    ensures StartsNumber(s) ==> t != ""
  {
    if At(s, 0, '-') then ['-'] + Unsigned(s[1..]) else Unsigned(s)
  }

  function Unexpected(c: char): Token {
    Token(TokenError, "unexpected character '" + [c] + "'")
  }

  predicate IsPunctuation(c: char) {
    c == '(' || c == ')' || c == '[' || c == ']' || c == ',' || c == '.' || c == ':' || c == '~' || c == '='
  }

  function Punctuation(c: char): Token
    requires IsPunctuation(c)
  {
    Token(if c == '(' then TokenLParen else if c == ')' then TokenRParen
          else if c == '[' then TokenLBracket else if c == ']' then TokenRBracket
          else if c == ',' then TokenComma else if c == '.' then TokenDot
          else if c == ':' then TokenColon else if c == '~' then TokenTilde else TokenEquals, [c])
  }

  predicate StartsOperator(c: char) {
    c == '!' || c == '>' || c == '<'
  }

  /** The token at the head of the input, and its length. */
  function Read(s: string): (r: Reading)
    requires s != "" && !IsSpace(s[0])
    ensures r.length <= |s| && r.token.kind != TokenEOF && (r.token.kind != TokenError ==> r.length > 0)
  {
    if IsPunctuation(s[0]) then Reading(Punctuation(s[0]), 1)
    else if StartsOperator(s[0]) then ReadOperator(s)
    else if s[0] == '"' || s[0] == '\'' then ReadString(s)
    else if s[0] == '@' || s[0] == '$' then ReadParam(s)
    else ReadLiteral(s)
  }

  /** A number, or a word, or nothing the language knows. */
  function ReadLiteral(s: string): (r: Reading)
    requires s != ""
    ensures 0 < r.length <= |s| && r.token.kind != TokenEOF
  {
    if StartsNumber(s) then Reading(Token(TokenNumber, Number(s)), |Number(s)|)
    else if IsIdentStart(s[0]) then ReadWord(s)
    else Reading(Unexpected(s[0]), 1)
  }

  function ReadOperator(s: string): (r: Reading)
    requires s != "" && StartsOperator(s[0])
    ensures 0 < r.length <= |s|
  {
    var c := s[0];
    if c == '!' then if At(s, 1, '=') then Reading(Token(TokenNotEquals, "!="), 2) else Reading(Unexpected('!'), 1)
    else if c == '>' then
      if At(s, 1, '=') then Reading(Token(TokenGreaterEq, ">="), 2) else Reading(Token(TokenGreater, ">"), 1)
    else if At(s, 1, '=') then Reading(Token(TokenLessEq, "<="), 2)
    else if At(s, 1, '>') then Reading(Token(TokenNotEquals, "<>"), 2)
    else Reading(Token(TokenLess, "<"), 1)
  }

  /** A keyword or an identifier. */
  function ReadWord(s: string): (r: Reading)
    requires s != "" && IsIdentStart(s[0])
    ensures 0 < r.length <= |s|
  {
    var t := TakeWhile(s, IsIdentChar);
    Reading(Token(KeywordKind(ToLower(t)), t), |t|)
  }

  function ReadString(s: string): (r: Reading)
    requires s != ""
    ensures r.length <= |s|
  {
    match ReadQuoted(s[1..], s[0])
    case Some(q) => Reading(Token(TokenString, q.0), 1 + q.1)
    case None => Reading(Token(TokenError, "unterminated string"), |s|)
  }

  function ReadParam(s: string): (r: Reading)
    requires s != ""
    ensures r.length <= |s|
  {
    var t := TakeWhile(s[1..], IsIdentChar);
    if |s| > 1 && IsIdentStart(s[1]) then Reading(Token(TokenParam, t), 1 + |t|)
    else Reading(Token(TokenError, "expected parameter name"), 1)
  }

  /** The next token, and how far it takes the input with the whitespace before it. */
  function NextToken(s: string): (r: Reading)
    ensures r.length <= |s|
    ensures r.token.kind == TokenEOF ==> r.length == |s|
    ensures r.token.kind !in {TokenEOF, TokenError} ==> r.length > 0
  {
    var skip := Spaces(s);
    if skip == |s| then Reading(Token(TokenEOF, ""), skip)
    else
      var r := Read(s[skip..]);
      Reading(r.token, skip + r.length)
  }

  /** All tokens up to the end of the input or the first error. */
  function Tokens(s: string): (ts: seq<Token>)
    ensures ts != []
    decreases |s|
  {
    var r := NextToken(s);
    if r.token.kind in {TokenEOF, TokenError} then [r.token] else [r.token] + Tokens(s[r.length..])
  }

  // ----- the lexer object -----

  class Scanner {
    const input: string
    var pos: nat
    var tokens: seq<Token>

    constructor (input: string)
      ensures this.input == input && pos == 0 && tokens == []
    {
      this.input, pos, tokens := input, 0, [];
    }

    method SkipWhitespace()
      requires pos <= |input|
      modifies `pos
      ensures pos == old(pos) + Spaces(input[old(pos)..])
    {
      while pos < |input| && IsSpace(input[pos])
        invariant pos <= |input|
        invariant pos + Spaces(input[pos..]) == old(pos) + Spaces(input[old(pos)..])
      {
        SuffixAt(input, pos);
        pos := pos + 1;
      }
    }

    /** Append the characters that satisfy `p`. */
    method ReadWhile(p: char -> bool) returns (text: string)
      requires pos <= |input|
      modifies `pos
      ensures text == TakeWhile(input[old(pos)..], p) && pos == old(pos) + |text| <= |input|
    {
      ghost var all := TakeWhile(input[pos..], p);
      text := "";
      while pos < |input| && p(input[pos])
        invariant pos == old(pos) + |text| <= |input|
        invariant text + TakeWhile(input[pos..], p) == all
      {
        SuffixAt(input, pos);
        Regroup(text, [input[pos]], TakeWhile(input[pos + 1..], p));
        text := text + [input[pos]];
        pos := pos + 1;
      }
    }

    method ReadStringToken() returns (t: Token)
      requires pos < |input|
      modifies `pos
      ensures old(pos) <= pos <= |input| && Reading(t, pos - old(pos)) == ReadString(input[old(pos)..])
    {
      SuffixAt(input, pos);
      var quote := input[pos];
      pos := pos + 1;
      var text := ReadQuotedText(quote);
      t := if text.Some? then Token(TokenString, text.value) else Token(TokenError, "unterminated string");
    }

    /** The content up to the closing quote; without one the whole input is used up. */
    method ReadQuotedText(quote: char) returns (content: Option<string>)
      requires pos <= |input|
      modifies `pos
      ensures old(pos) <= pos <= |input|
      ensures ReadQuoted(input[old(pos)..], quote)
           == if content.Some? then Some((content.value, pos - old(pos))) else None
      ensures content.None? ==> pos == |input|
    {
      ghost var start := pos;
      ghost var all := ReadQuoted(input[pos..], quote);
      var text := "";
      PrefixNothing(all);
      while pos < |input|
        invariant start <= pos <= |input|
        invariant all == Prefixed(text, pos - start, ReadQuoted(input[pos..], quote))
      {
        var c := input[pos];
        if c == quote {
          QuoteCloses(input, pos, quote, text, pos - start);
          pos := pos + 1;
          return Some(text);
        }
        if c == '\\' && pos + 1 < |input| {
          QuoteEscapes(input, pos, quote, text, pos - start);
          text := text + [Unescaped(input[pos + 1])];
          pos := pos + 2;
        } else {
          QuoteGoesOn(input, pos, quote, text, pos - start);
          text := text + [c];
          pos := pos + 1;
        }
      }
      content := None;
    }

    method ReadNumberToken() returns (t: Token)
      requires pos <= |input| && StartsNumber(input[pos..])
      modifies `pos
      ensures t == Token(TokenNumber, Number(input[old(pos)..])) && pos == old(pos) + |t.text| <= |input|
    {
      if input[pos] == '-' {
        SuffixAt(input, pos);
        pos := pos + 1;
        var text := ReadUnsigned();
        return Token(TokenNumber, ['-'] + text);
      }
      var text := ReadUnsigned();
      t := Token(TokenNumber, text);
    }

    method ReadUnsigned() returns (text: string)
      requires pos <= |input|
      modifies `pos
      ensures text == Unsigned(input[old(pos)..]) && pos == old(pos) + |text| <= |input|
    {
      ghost var start := pos;
      var digits := ReadWhile(Decimal.IsDigit);
      var rest := ReadFractionExponent();
      text := digits + rest;
      Suffix(input, start, |digits|);
      UnsignedIs(input[start..], digits, rest, text);
    }

    method ReadFractionExponent() returns (text: string)
      requires pos <= |input|
      modifies `pos
      ensures text == FractionExponent(input[old(pos)..]) && pos == old(pos) + |text| <= |input|
    {
      var fraction := ReadFraction();
      Suffix(input, old(pos), |fraction|);
      var exponent := ReadExponent();
      text := fraction + exponent;
    }

    method ReadFraction() returns (text: string)
      requires pos <= |input|
      modifies `pos
      ensures text == Fraction(input[old(pos)..]) && pos == old(pos) + |text| <= |input|
    {
      text := "";
      if pos < |input| && input[pos] == '.' {
        if pos + 1 < |input| && Decimal.IsDigit(input[pos + 1]) {
          SuffixAt(input, pos);
          pos := pos + 1;
          text := ReadWhile(Decimal.IsDigit);
          text := ['.'] + text;
        }
      }
    }

    method ReadExponent() returns (text: string)
      requires pos <= |input|
      modifies `pos
      ensures text == Exponent(input[old(pos)..]) && pos == old(pos) + |text| <= |input|
    {
      text := "";
      if pos < |input| && (input[pos] == 'e' || input[pos] == 'E') {
        ghost var start := pos;
        text := [input[pos]];
        pos := pos + 1;
        if pos < |input| && (input[pos] == '+' || input[pos] == '-') {
          text := [input[pos - 1], input[pos]];
          pos := pos + 1;
        }
        Suffix(input, start, pos - start);
        var digits := ReadWhile(Decimal.IsDigit);
        text := text + digits;
      }
    }

    method ReadIdentifierToken() returns (t: Token)
      requires pos < |input| && IsIdentStart(input[pos])
      modifies `pos
      ensures old(pos) <= pos <= |input| && Reading(t, pos - old(pos)) == ReadWord(input[old(pos)..])
    {
      var text := ReadWhile(IsIdentChar);
      t := Token(KeywordKind(ToLower(text)), text);
    }

    method ReadParamToken() returns (t: Token)
      requires pos < |input|
      modifies `pos
      ensures old(pos) <= pos <= |input| && Reading(t, pos - old(pos)) == ReadParam(input[old(pos)..])
    {
      SuffixAt(input, pos);
      pos := pos + 1;
      if pos >= |input| || !IsIdentStart(input[pos]) {
        return Token(TokenError, "expected parameter name");
      }
      var text := ReadWhile(IsIdentChar);
      t := Token(TokenParam, text);
    }

    method ReadNext() returns (t: Token)
      requires pos <= |input|
      modifies `pos
      ensures old(pos) <= pos <= |input| && Reading(t, pos - old(pos)) == NextToken(input[old(pos)..])
    {
      ghost var from := pos;
      SkipWhitespace();
      ghost var start := pos;
      if pos >= |input| {
        NextAtEnd(input, from);
        return Token(TokenEOF, "");
      }
      StartsToken(input, from, start);
      t := ReadToken();
      HeadIs(input[start..], Reading(t, pos - start));
      NextIs(input, from, start, Reading(t, pos - start));
    }

    method ReadToken() returns (t: Token)
      requires pos < |input| && !IsSpace(input[pos])
      modifies `pos
      ensures old(pos) <= pos <= |input| && Reading(t, pos - old(pos)) == Read(input[old(pos)..])
    {
      var c := input[pos];
      if IsPunctuation(c) {
        pos := pos + 1;
        t := Punctuation(c);
      } else if StartsOperator(c) {
        t := ReadOperatorToken();
      } else if c == '"' || c == '\'' {
        t := ReadStringToken();
      } else if c == '@' || c == '$' {
        t := ReadParamToken();
      } else {
        t := ReadLiteralToken();
      }
    }

    method ReadLiteralToken() returns (t: Token)
      requires pos < |input|
      modifies `pos
      ensures old(pos) <= pos <= |input| && Reading(t, pos - old(pos)) == ReadLiteral(input[old(pos)..])
    {
      if StartsNumber(input[pos..]) {
        t := ReadNumberToken();
      } else if IsIdentStart(input[pos]) {
        t := ReadIdentifierToken();
      } else {
        pos := pos + 1;
        t := Unexpected(input[pos - 1]);
      }
    }

    method ReadOperatorToken() returns (t: Token)
      requires pos < |input| && StartsOperator(input[pos])
      modifies `pos
      ensures old(pos) <= pos <= |input| && Reading(t, pos - old(pos)) == ReadOperator(input[old(pos)..])
    {
      var c := input[pos];
      pos := pos + 1;
      var equal := pos < |input| && input[pos] == '=';
      var greater := pos < |input| && input[pos] == '>';
      if c == '!' {
        if equal {
          pos := pos + 1;
          return Token(TokenNotEquals, "!=");
        }
        return Unexpected(c);
      }
      if c == '>' {
        if equal {
          pos := pos + 1;
          return Token(TokenGreaterEq, ">=");
        }
        return Token(TokenGreater, ">");
      }
      if equal {
        pos := pos + 1;
        return Token(TokenLessEq, "<=");
      }
      if greater {
        pos := pos + 1;
        return Token(TokenNotEquals, "<>");
      }
      t := Token(TokenLess, "<");
    }

    /** One more token; after the end of the input or an error nothing remains to be read. */
    method Append() returns (t: Token)
      requires Remains(input, pos, tokens)
      modifies this
      ensures tokens == old(tokens) + [t]
      ensures t.kind in {TokenEOF, TokenError} ==> tokens == Tokens(input)
      ensures t.kind !in {TokenEOF, TokenError} ==> pos > old(pos) && Remains(input, pos, tokens)
    {
      ghost var from := pos;
      t := ReadNext();
      if t.kind in {TokenEOF, TokenError} {
        TookLast(input, from, tokens, t, pos);
      } else {
        TookMore(input, from, tokens, t, pos);
      }
      tokens := tokens + [t];
    }

    /** All tokens; they end with the end of the input or with the first error. */
    method Tokenize() returns (ok: bool)
      requires pos == 0 && tokens == []
      modifies this
      ensures tokens == Tokens(input) && ok == (tokens[|tokens| - 1].kind == TokenEOF)
    {
      AllRemains(input);
      while true
        invariant Remains(input, pos, tokens)
        decreases |input| - pos
      {
        var t := Append();
        if t.kind == TokenEOF || t.kind == TokenError {
          return t.kind == TokenEOF;
        }
      }
    }
  }

  lemma SuffixAt(input: string, pos: nat)
    requires pos < |input|
    ensures input[pos..][0] == input[pos] && input[pos..][1..] == input[pos + 1..]
  {
  }

  lemma PrefixNothing(r: Option<(string, nat)>)
    ensures Prefixed("", 0, r) == r
  {
    if r.Some? {
      assert "" + r.value.0 == r.value.0;
    }
  }

  lemma PrefixLast(text: string, used: nat)
    ensures Prefixed(text, used, Some(("", 1))) == Some((text, used + 1))
  {
    assert text + "" == text;
  }

  lemma PrefixTwice(a: string, m: nat, b: string, n: nat, r: Option<(string, nat)>)
    ensures Prefixed(a, m, Prefixed(b, n, r)) == Prefixed(a + b, m + n, r)
  {
    if r.Some? {
      assert a + (b + r.value.0) == a + b + r.value.0;
    }
  }

  lemma QuoteCloses(s: string, pos: nat, quote: char, text: string, used: nat)
    requires pos < |s| && s[pos] == quote
    ensures Prefixed(text, used, ReadQuoted(s[pos..], quote)) == Some((text, used + 1))
  {
    QuotedStep(s, pos, quote);
    PrefixLast(text, used);
  }

  lemma QuoteEscapes(s: string, pos: nat, quote: char, text: string, used: nat)
    requires pos + 1 < |s| && s[pos] != quote && s[pos] == '\\'
    ensures Prefixed(text, used, ReadQuoted(s[pos..], quote))
         == Prefixed(text + [Unescaped(s[pos + 1])], used + 2, ReadQuoted(s[pos + 2..], quote))
  {
    QuotedStep(s, pos, quote);
    PrefixTwice(text, used, [Unescaped(s[pos + 1])], 2, ReadQuoted(s[pos + 2..], quote));
  }

  lemma QuoteGoesOn(s: string, pos: nat, quote: char, text: string, used: nat)
    requires pos < |s| && s[pos] != quote && !(s[pos] == '\\' && pos + 1 < |s|)
    ensures Prefixed(text, used, ReadQuoted(s[pos..], quote))
         == Prefixed(text + [s[pos]], used + 1, ReadQuoted(s[pos + 1..], quote))
  {
    QuotedStep(s, pos, quote);
    PrefixTwice(text, used, [s[pos]], 1, ReadQuoted(s[pos + 1..], quote));
  }

  // ----- reading from the middle of the input -----

  lemma Suffix(s: string, start: nat, n: nat)
    requires start + n <= |s|
    ensures s[start..][n..] == s[start + n..]
  {
  }

  /** What is read at the head of a text that is not empty and has no whitespace there. */
  function Head(s: string): Reading {
    if s == "" || IsSpace(s[0]) then Reading(Token(TokenEOF, ""), 0) else Read(s)
  }

  lemma HeadIs(s: string, r: Reading)
    requires s != "" && !IsSpace(s[0]) && r == Read(s)
    ensures r == Head(s)
  {
  }

  lemma NextAtEnd(s: string, from: nat)
    requires from <= |s| && from + Spaces(s[from..]) == |s|
    ensures NextToken(s[from..]) == Reading(Token(TokenEOF, ""), |s| - from)
  {
  }

  lemma StartsToken(s: string, from: nat, start: nat)
    requires from <= start < |s| && start - from == Spaces(s[from..])
    ensures !IsSpace(s[start])
  {
    Suffix(s, from, start - from);
  }

  /** The next token, read after the whitespace. */
  lemma NextIs(s: string, from: nat, start: nat, r: Reading)
    requires from <= start < |s| && start - from == Spaces(s[from..])
    requires r == Head(s[start..])
    ensures NextToken(s[from..]) == Reading(r.token, start - from + r.length)
  {
    Suffix(s, from, start - from);
    NextOf(s[from..], start - from, s[start..], r);
  }

  lemma NextOf(s: string, skip: nat, rest: string, r: Reading)
    requires skip == Spaces(s) < |s| && rest == s[skip..] && r == Head(rest)
    ensures NextToken(s) == Reading(r.token, skip + r.length)
  {
  }

  lemma UnsignedIs(s: string, digits: string, rest: string, text: string)
    requires digits == Digits(s) && rest == FractionExponent(s[|digits|..]) && text == digits + rest
    ensures text == Unsigned(s) && |text| == |digits| + |rest|
  {
  }

  lemma Regroup<T>(a: seq<T>, b: seq<T>, c: seq<T>)
    ensures a + b + c == a + (b + c)
  {
  }

  lemma TokensEnd(s: string, t: Token)
    requires NextToken(s).token == t && t.kind in {TokenEOF, TokenError}
    ensures Tokens(s) == [t]
  {
  }

  lemma TokensNext(s: string, t: Token, n: nat)
    requires NextToken(s) == Reading(t, n) && t.kind !in {TokenEOF, TokenError}
    ensures Tokens(s) == [t] + Tokens(s[n..])
  {
  }

  /** The tokens so far, and those of the text still unread. */
  predicate Remains(input: string, pos: nat, tokens: seq<Token>) {
    pos <= |input| && tokens + Tokens(input[pos..]) == Tokens(input)
  }

  lemma AllRemains(input: string)
    ensures Remains(input, 0, [])
  {
    assert input[0..] == input;
    assert [] + Tokens(input) == Tokens(input);
  }

  lemma OneMoreToken(all: seq<Token>, tokens: seq<Token>, s: string, t: Token, n: nat, rest: string)
    requires tokens + Tokens(s) == all && n <= |s| && rest == s[n..]
    requires NextToken(s) == Reading(t, n) && t.kind !in {TokenEOF, TokenError}
    ensures n > 0 && tokens + [t] + Tokens(rest) == all
  {
    TokensNext(s, t, n);
    Regroup(tokens, [t], Tokens(rest));
  }

  lemma LastToken(all: seq<Token>, tokens: seq<Token>, s: string, t: Token, n: nat)
    requires tokens + Tokens(s) == all && NextToken(s) == Reading(t, n) && t.kind in {TokenEOF, TokenError}
    ensures tokens + [t] == all
  {
    TokensEnd(s, t);
  }

  lemma TookLast(input: string, from: nat, tokens: seq<Token>, t: Token, to: nat)
    requires Remains(input, from, tokens) && from <= to && Reading(t, to - from) == NextToken(input[from..])
    requires t.kind in {TokenEOF, TokenError}
    ensures tokens + [t] == Tokens(input)
  {
    LastToken(Tokens(input), tokens, input[from..], t, to - from);
  }

  lemma TookMore(input: string, from: nat, tokens: seq<Token>, t: Token, to: nat)
    requires Remains(input, from, tokens) && from <= to <= |input| && Reading(t, to - from) == NextToken(input[from..])
    requires t.kind !in {TokenEOF, TokenError}
    ensures to > from && Remains(input, to, tokens + [t])
  {
    Suffix(input, from, to - from);
    OneMoreToken(Tokens(input), tokens, input[from..], t, to - from, input[to..]);
  }

  lemma QuotedStep(input: string, pos: nat, quote: char)
    requires pos < |input|
    ensures ReadQuoted(input[pos..], quote) ==
      if input[pos] == quote then Some(("", 1))
      else if input[pos] == '\\' && pos + 1 < |input| then
        Prefixed([Unescaped(input[pos + 1])], 2, ReadQuoted(input[pos + 2..], quote))
      else Prefixed([input[pos]], 1, ReadQuoted(input[pos + 1..], quote))
  {
    SuffixAt(input, pos);
    if pos + 1 < |input| {
      assert input[pos..][2..] == input[pos + 2..];
    }
  }
}
