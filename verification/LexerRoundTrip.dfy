/** What the lexer guarantees of its tokens, and that it reads back any list of tokens it can
    produce, however they are laid out. */
module LexerRoundTrip {
  import opened Results
  import opened QueryTokens
  import opened Lexer
  import opened Keywords
  import Decimal

  // ----- the tokens there are -----

  predicate AllOf(text: string, p: char -> bool) {
    forall i :: 0 <= i < |text| ==> p(text[i])
  }

  /** Letters of ASCII and of Latin-1. */
  predicate Letter(c: char) {
    || 'a' <= c <= 'z' || 'A' <= c <= 'Z'
    || 0xC0 <= c as int <= 0xD6 || 0xD8 <= c as int <= 0xF6 || 0xF8 <= c as int <= 0xFF
    || c as int in {0xAA, 0xB5, 0xBA}
  }

  predicate WordStart(c: char) {
    Letter(c) || c == '_'
  }

  predicate WordChar(c: char) {
    WordStart(c) || '0' <= c <= '9'
  }

  predicate WordLike(text: string) {
    text != "" && WordStart(text[0]) && AllOf(text, WordChar)
  }

  predicate BlankChar(c: char) {
    c in {' ', '\t', '\n', '\r'}
  }

  predicate IsBlank(gap: string) {
    AllOf(gap, BlankChar)
  }

  /** Digits, if any. */
  predicate IsDigits(s: string) {
    AllOf(s, Decimal.IsDigit)
  }

  predicate IsSign(s: string) {
    s == "" || s == "-"
  }

  /** A point and a digit at least. */
  predicate IsFraction(s: string) {
    s == "" || (|s| > 1 && s[0] == '.' && IsDigits(s[1..]))
  }

  /** A mark and perhaps a sign; the digits may be missing. */
  predicate IsExponent(s: string) {
    s == "" || (s[0] in {'e', 'E'} && (IsDigits(s[1..]) || (s[1] in {'+', '-'} && IsDigits(s[2..]))))
  }

  ghost predicate IsNumeral(text: string) {
    exists sign, whole, fraction, exponent ::
      text == sign + (whole + (fraction + exponent)) && IsSign(sign) && whole != "" && IsDigits(whole)
      && IsFraction(fraction) && IsExponent(exponent)
  }

  predicate IsMark(t: Token) {
    || t == Token(TokenLParen, "(") || t == Token(TokenRParen, ")")
    || t == Token(TokenLBracket, "[") || t == Token(TokenRBracket, "]")
    || t == Token(TokenComma, ",") || t == Token(TokenDot, ".") || t == Token(TokenColon, ":")
    || t == Token(TokenTilde, "~") || t == Token(TokenEquals, "=")
  }

  predicate IsOperator(t: Token) {
    || t == Token(TokenNotEquals, "!=") || t == Token(TokenNotEquals, "<>")
    || t == Token(TokenGreater, ">") || t == Token(TokenGreaterEq, ">=")
    || t == Token(TokenLess, "<") || t == Token(TokenLessEq, "<=")
  }

  /** The tokens some text is read as. */
  ghost predicate Lexable(t: Token) {
    if t.kind == TokenString then true
    else if t.kind == TokenParam then WordLike(t.text)
    else if t.kind == TokenNumber then IsNumeral(t.text)
    else IsMark(t) || IsOperator(t) || (WordLike(t.text) && Means(t.text, t.kind))
  }

  // ----- runs -----

  lemma {:induction false} TakePrefix(s: string, p: char -> bool)
    ensures var n := |TakeWhile(s, p)|; TakeWhile(s, p) == s[..n] && AllOf(s[..n], p) && (n < |s| ==> !p(s[n]))
    decreases |s|
  {
    if s != "" && p(s[0]) {
      TakePrefix(s[1..], p);
    }
  }

  /** What follows a run does not matter when it cannot be part of it. */
  lemma {:induction false} TakeStops(s: string, rest: string, p: char -> bool)
    requires rest == "" || !p(rest[0])
    ensures TakeWhile(s + rest, p) == TakeWhile(s, p)
    decreases |s|
  {
    if s == "" {
      assert s + rest == rest;
    } else {
      assert (s + rest)[1..] == s[1..] + rest;
      TakeStops(s[1..], rest, p);
    }
  }

  lemma {:induction false} TakeAll(s: string, p: char -> bool)
    requires AllOf(s, p)
    ensures TakeWhile(s, p) == s
    decreases |s|
  {
    if s != "" {
      TakeAll(s[1..], p);
    }
  }

  lemma {:induction false} SpacesStop(gap: string, rest: string)
    requires AllOf(gap, IsSpace) && (rest == "" || !IsSpace(rest[0]))
    ensures Spaces(gap + rest) == |gap|
    decreases |gap|
  {
    if gap == "" {
      assert gap + rest == rest;
    } else {
      assert (gap + rest)[1..] == gap[1..] + rest;
      SpacesStop(gap[1..], rest);
    }
  }

  lemma {:induction false} SpacesAre(s: string)
    ensures AllOf(s[..Spaces(s)], IsSpace)
    decreases |s|
  {
    if s != "" && IsSpace(s[0]) {
      SpacesAre(s[1..]);
    }
  }

  // ----- numbers -----

  /** Nothing a number could go on with. */
  predicate Ends(rest: string) {
    rest == "" || !(Decimal.IsDigit(rest[0]) || rest[0] in {'.', 'e', 'E', '+', '-'})
  }

  lemma Beyond(s: string, rest: string, n: nat)
    requires n <= |s|
    ensures (s + rest)[n..] == s[n..] + rest
  {
  }

  /** A number is a prefix of what it is read from. */
  lemma FractionPrefix(s: string)
    ensures Fraction(s) == s[..|Fraction(s)|]
  {
    if Fraction(s) != "" {
      TakePrefix(s[1..], Decimal.IsDigit);
      PrefixAfter(s, 1, Digits(s[1..]));
      assert [s[0]] == s[..1];
    }
  }

  lemma PrefixAfter(s: string, n: nat, t: string)
    requires n + |t| <= |s| && t == s[n..][..|t|]
    ensures s[..n] + t == s[..n + |t|]
  {
  }

  lemma ExponentPrefix(s: string)
    ensures Exponent(s) == s[..|Exponent(s)|]
  {
    if Exponent(s) != "" {
      TakePrefix(s[1..], Decimal.IsDigit);
      if |s| > 1 {
        TakePrefix(s[2..], Decimal.IsDigit);
      }
    }
  }

  lemma PrefixJoined(s: string, a: string, b: string)
    requires |a| + |b| <= |s| && a == s[..|a|] && b == s[|a|..][..|b|]
    ensures a + b == s[..|a + b|]
  {
  }

  lemma NumberPrefix(s: string)
    ensures Number(s) == s[..|Number(s)|]
  {
    if At(s, 0, '-') {
      UnsignedPrefix(s[1..]);
      PrefixJoined(s, ['-'], Unsigned(s[1..]));
    } else {
      UnsignedPrefix(s);
    }
  }

  lemma UnsignedPrefix(s: string)
    ensures Unsigned(s) == s[..|Unsigned(s)|]
  {
    TakePrefix(s, Decimal.IsDigit);
    var rest := s[|Digits(s)|..];
    FractionPrefix(rest);
    ExponentPrefix(rest[|Fraction(rest)|..]);
    PrefixJoined(rest, Fraction(rest), Exponent(rest[|Fraction(rest)|..]));
    PrefixJoined(s, Digits(s), FractionExponent(rest));
  }

  // ----- what is read as a number -----

  lemma DigitsOf(s: string)
    ensures IsDigits(Digits(s))
  {
    TakePrefix(s, Decimal.IsDigit);
  }

  lemma FractionOf(s: string)
    ensures IsFraction(Fraction(s))
  {
    if Fraction(s) != "" {
      DigitsOf(s[1..]);
      assert Fraction(s)[1..] == Digits(s[1..]);
    }
  }

  lemma ExponentOf(s: string)
    ensures IsExponent(Exponent(s))
  {
    var e := Exponent(s);
    if e != "" {
      if At(s, 1, '+') || At(s, 1, '-') {
        DigitsOf(s[2..]);
        assert e[2..] == Digits(s[2..]);
      } else {
        DigitsOf(s[1..]);
        assert e[1..] == Digits(s[1..]);
      }
    }
  }

  lemma NumberIsNumeral(s: string)
    requires StartsNumber(s)
    ensures IsNumeral(Number(s))
  {
    var sign := if At(s, 0, '-') then "-" else "";
    var t := if At(s, 0, '-') then s[1..] else s;
    var afterDigits := t[|Digits(t)|..];
    var fraction := Fraction(afterDigits);
    var exponent := Exponent(afterDigits[|fraction|..]);
    DigitsOf(t);
    FractionOf(afterDigits);
    ExponentOf(afterDigits[|fraction|..]);
    assert Number(s) == sign + (Digits(t) + (fraction + exponent));
  }

  lemma DigitsRead(s: string, rest: string)
    requires IsDigits(s) && (rest == "" || !Decimal.IsDigit(rest[0]))
    ensures Digits(s + rest) == s
  {
    TakeStops(s, rest, Decimal.IsDigit);
    TakeAll(s, Decimal.IsDigit);
  }

  lemma FractionReads(s: string, rest: string)
    requires IsFraction(s) && (rest == "" || !(Decimal.IsDigit(rest[0]) || rest[0] == '.'))
    ensures Fraction(s + rest) == s
  {
    if s == "" {
      assert s + rest == rest;
    } else {
      assert (s + rest)[1..] == s[1..] + rest && (s + rest)[1] == s[1];
      DigitsRead(s[1..], rest);
      assert s == [s[0]] + s[1..];
    }
  }

  lemma ExponentReads(s: string, rest: string)
    requires IsExponent(s) && Ends(rest)
    ensures Exponent(s + rest) == s
  {
    var all := s + rest;
    if s == "" {
      assert all == rest;
    } else if IsDigits(s[1..]) {
      assert all[1..] == s[1..] + rest;
      assert |all| > 1 ==> all[1] == if |s| > 1 then s[1] else rest[0];
      DigitsRead(s[1..], rest);
      assert s == [s[0]] + s[1..];
    } else {
      SignedExponentReads(s, rest);
    }
  }

  lemma SignedExponentReads(s: string, rest: string)
    requires |s| > 1 && s[0] in {'e', 'E'} && s[1] in {'+', '-'} && IsDigits(s[2..]) && Ends(rest)
    ensures Exponent(s + rest) == s
  {
    var all := s + rest;
    DigitsRead(s[2..], rest);
    TwoThenRest(s, rest);
    assert At(all, 1, '+') || At(all, 1, '-');
  }

  lemma TwoThenRest(s: string, rest: string)
    requires |s| > 1
    ensures var all := s + rest; all[0] == s[0] && all[1] == s[1] && all[2..] == s[2..] + rest
    ensures s == [s[0], s[1]] + s[2..]
  {
  }

  lemma UnsignedReads(whole: string, fraction: string, exponent: string, rest: string)
    requires IsDigits(whole) && IsFraction(fraction) && IsExponent(exponent) && Ends(rest)
    ensures Unsigned(whole + (fraction + exponent) + rest) == whole + (fraction + exponent)
  {
    var tail := exponent + rest;
    var more := fraction + tail;
    assert tail == "" || tail[0] == if exponent != "" then exponent[0] else rest[0];
    assert more == "" || more[0] == if fraction != "" then fraction[0] else tail[0];
    assert whole + (fraction + exponent) + rest == whole + more;
    DigitsRead(whole, more);
    assert (whole + more)[|whole|..] == more;
    FractionReads(fraction, tail);
    assert more[|fraction|..] == tail;
    ExponentReads(exponent, rest);
  }

  /** A numeral is read whole, up to what a number cannot go on with. */
  lemma NumeralReads(text: string, rest: string)
    requires IsNumeral(text) && Ends(rest)
    ensures Number(text + rest) == text && StartsNumber(text + rest)
  {
    var sign, whole, fraction, exponent :|
      text == sign + (whole + (fraction + exponent)) && IsSign(sign) && whole != "" && IsDigits(whole)
      && IsFraction(fraction) && IsExponent(exponent);
    var unsigned := whole + (fraction + exponent);
    assert unsigned[0] == whole[0];
    UnsignedReads(whole, fraction, exponent, rest);
    assert Decimal.IsDigit(whole[0]);
    SignedReads(sign, unsigned, rest);
  }

  lemma SignedReads(sign: string, unsigned: string, rest: string)
    requires IsSign(sign) && unsigned != "" && Decimal.IsDigit(unsigned[0])
    requires Unsigned(unsigned + rest) == unsigned
    ensures Number(sign + unsigned + rest) == sign + unsigned && StartsNumber(sign + unsigned + rest)
  {
    SignedText(sign, unsigned, rest);
    if sign == "-" {
      NegativeReads(sign + unsigned + rest, unsigned + rest, unsigned);
    } else {
      PositiveReads(unsigned + rest, unsigned);
    }
  }

  lemma SignedText(sign: string, unsigned: string, rest: string)
    requires IsSign(sign) && unsigned != ""
    ensures var s := sign + unsigned + rest;
      (unsigned + rest)[0] == unsigned[0]
      && (if sign == "-" then |s| > 1 && s[0] == '-' && s[1] == unsigned[0] && s[1..] == unsigned + rest
          else s == unsigned + rest && sign + unsigned == unsigned)
  {
  }

  lemma NegativeReads(s: string, tail: string, unsigned: string)
    requires |s| > 1 && s[0] == '-' && Decimal.IsDigit(s[1]) && s[1..] == tail && Unsigned(tail) == unsigned
    ensures Number(s) == "-" + unsigned && StartsNumber(s)
  {
  }

  lemma PositiveReads(s: string, unsigned: string)
    requires s != "" && Decimal.IsDigit(s[0]) && Unsigned(s) == unsigned
    ensures Number(s) == unsigned && StartsNumber(s)
  {
  }

  // ----- every token read is one of those -----

  lemma ParamLexable(s: string)
    requires s != "" && s[0] in {'@', '$'}
    ensures ReadParam(s).token.kind != TokenError ==> Lexable(ReadParam(s).token)
  {
    TakePrefix(s[1..], IsIdentChar);
  }

  lemma NumberLexable(s: string)
    requires s != "" && StartsNumber(s)
    ensures Lexable(Token(TokenNumber, Number(s)))
  {
    NumberIsNumeral(s);
  }

  lemma IdentLexable(s: string)
    requires s != "" && IsIdentStart(s[0])
    ensures Lexable(ReadWord(s).token)
  {
    var t := ReadWord(s).token;
    TakePrefix(s, IsIdentChar);
    TakenIsWord(t.text);
    MeansExactly(t.text, t.kind);
  }

  lemma TakenIsWord(text: string)
    requires text != "" && IsIdentStart(text[0]) && AllOf(text, IsIdentChar)
    ensures WordLike(text)
  {
    assert forall i :: 0 <= i < |text| ==> WordChar(text[i]);
  }

  lemma OperatorLexable(s: string)
    requires s != "" && StartsOperator(s[0])
    ensures ReadOperator(s).token.kind != TokenError ==> Lexable(ReadOperator(s).token)
  {
  }

  lemma LiteralLexable(s: string)
    requires s != ""
    ensures ReadLiteral(s).token.kind != TokenError ==> Lexable(ReadLiteral(s).token)
  {
    if StartsNumber(s) {
      NumberLexable(s);
    } else if IsIdentStart(s[0]) {
      IdentLexable(s);
    }
  }

  lemma ReadLexable(s: string)
    requires s != "" && !IsSpace(s[0])
    ensures Read(s).token.kind != TokenError ==> Lexable(Read(s).token)
  {
    var c := s[0];
    if IsPunctuation(c) || c == '"' || c == '\'' {
    } else if StartsOperator(c) {
      OperatorLexable(s);
    } else if c == '@' || c == '$' {
      ParamLexable(s);
    } else {
      LiteralLexable(s);
    }
  }

  /** All tokens before the last are of those kinds; the last is the end or an error. */
  ghost predicate WellEnded(ts: seq<Token>)
    decreases |ts|
  {
    ts != [] && if ts[0].kind in {TokenEOF, TokenError} then |ts| == 1 else Lexable(ts[0]) && WellEnded(ts[1..])
  }

  lemma NextLexable(s: string)
    ensures var t := NextToken(s).token; t.kind in {TokenEOF, TokenError} || Lexable(t)
  {
    if Spaces(s) < |s| {
      ReadLexable(s[Spaces(s)..]);
    }
  }

  lemma WellEndedStep(t: Token, ts: seq<Token>)
    requires t.kind !in {TokenEOF, TokenError} && Lexable(t) && WellEnded(ts)
    ensures WellEnded([t] + ts)
  {
    assert ([t] + ts)[1..] == ts;
  }

  lemma {:induction false} TokensLexable(s: string)
    ensures WellEnded(Tokens(s))
    decreases |s|
  {
    var r := NextToken(s);
    if r.token.kind !in {TokenEOF, TokenError} {
      NextLexable(s);
      TokensLexable(s[r.length..]);
      TokensNext(s, r.token, r.length);
      WellEndedStep(r.token, Tokens(s[r.length..]));
    }
  }

  lemma {:induction false} BeforeTheEnd(ts: seq<Token>, last: Token)
    requires WellEnded(ts + [last])
    ensures AllLexable(ts)
    decreases |ts|
  {
    if ts != [] {
      assert (ts + [last])[1..] == ts[1..] + [last];
      assert (ts + [last])[0] == ts[0];
      BeforeTheEnd(ts[1..], last);
    }
  }

  // ----- spans -----

  /** A token other than a string or a parameter is spelled as it stands. */
  predicate Spelled(t: Token, span: string) {
    if t.kind == TokenString then
      span != "" && span[0] in {'"', '\''} && ReadQuoted(span[1..], span[0]) == Some((t.text, |span| - 1))
    else if t.kind == TokenParam then span != "" && span[0] in {'@', '$'} && span[1..] == t.text
    else span == t.text
  }

  /** The text is cut into pieces, one for each token: whitespace, then what the token was read
      from. Before an error or the end no token is read from nothing; the end is the end of the text. */
  predicate Covers(s: string, ts: seq<Token>, cuts: seq<Cut>)
    decreases |ts|
  {
    ts != [] && |cuts| == |ts| && CutAt(s, ts[0], cuts[0])
    && if ts[0].kind in {TokenEOF, TokenError} then |ts| == 1
       else Covers(s[cuts[0].gap + cuts[0].length..], ts[1..], cuts[1..])
  }

  datatype Cut = Cut(gap: nat, length: nat)

  predicate CutAt(s: string, t: Token, c: Cut) {
    && c.gap + c.length <= |s| && IsBlank(s[..c.gap])
    && (t.kind == TokenEOF ==> c == Cut(|s|, 0))
    && (t.kind !in {TokenEOF, TokenError} ==> c.length > 0 && Spelled(t, s[c.gap..c.gap + c.length]))
  }

  lemma {:induction false} QuotedLocal(s: string, quote: char)
    requires ReadQuoted(s, quote).Some?
    ensures var n := ReadQuoted(s, quote).value.1; ReadQuoted(s[..n], quote) == ReadQuoted(s, quote)
    decreases |s|
  {
    var n := ReadQuoted(s, quote).value.1;
    if s[0] == quote {
    } else if s[0] == '\\' && |s| > 1 {
      QuotedLocal(s[2..], quote);
      assert s[..n][2..] == s[2..][..n - 2];
    } else {
      QuotedLocal(s[1..], quote);
      assert s[..n][1..] == s[1..][..n - 1];
    }
  }

  lemma StringSpelled(s: string)
    requires s != "" && s[0] in {'"', '\''} && ReadString(s).token.kind != TokenError
    ensures ReadString(s).length <= |s| && Spelled(ReadString(s).token, s[..ReadString(s).length])
  {
    var n := ReadString(s).length;
    QuotedLocal(s[1..], s[0]);
    assert s[..n][1..] == s[1..][..n - 1];
  }

  lemma ParamSpelled(s: string)
    requires s != "" && s[0] in {'@', '$'} && ReadParam(s).token.kind != TokenError
    ensures ReadParam(s).length <= |s| && Spelled(ReadParam(s).token, s[..ReadParam(s).length])
  {
    var n := ReadParam(s).length;
    TakePrefix(s[1..], IsIdentChar);
    assert s[..n][1..] == s[1..][..n - 1];
  }

  lemma LiteralSpelled(s: string)
    requires s != "" && ReadLiteral(s).token.kind != TokenError
    ensures ReadLiteral(s).length <= |s| && Spelled(ReadLiteral(s).token, s[..ReadLiteral(s).length])
  {
    if StartsNumber(s) {
      NumberPrefix(s);
    } else {
      TakePrefix(s, IsIdentChar);
    }
  }

  lemma ReadSpelled(s: string)
    requires s != "" && !IsSpace(s[0]) && Read(s).token.kind != TokenError
    ensures Spelled(Read(s).token, s[..Read(s).length])
  {
    var c := s[0];
    if IsPunctuation(c) || StartsOperator(c) {
    } else if c == '"' || c == '\'' {
      StringSpelled(s);
    } else if c == '@' || c == '$' {
      ParamSpelled(s);
    } else {
      LiteralSpelled(s);
    }
  }

  lemma NextCut(s: string)
    ensures var r := NextToken(s); CutAt(s, r.token, Cut(Spaces(s), r.length - Spaces(s)))
  {
    var r, skip := NextToken(s), Spaces(s);
    SpacesAre(s);
    if r.token.kind !in {TokenEOF, TokenError} {
      ReadSpelled(s[skip..]);
      assert s[skip..r.length] == s[skip..][..r.length - skip];
    }
  }

  lemma CoversStep(s: string, t: Token, c: Cut, ts: seq<Token>, cuts: seq<Cut>)
    requires t.kind !in {TokenEOF, TokenError} && CutAt(s, t, c) && Covers(s[c.gap + c.length..], ts, cuts)
    ensures Covers(s, [t] + ts, [c] + cuts)
  {
    assert ([t] + ts)[1..] == ts && ([c] + cuts)[1..] == cuts;
  }

  /** Nothing of a text is lost between its tokens but whitespace. */
  lemma {:induction false} TokensCover(s: string) returns (cuts: seq<Cut>)
    ensures Covers(s, Tokens(s), cuts)
    decreases |s|
  {
    var r := NextToken(s);
    var c := Cut(Spaces(s), r.length - Spaces(s));
    NextCut(s);
    if r.token.kind in {TokenEOF, TokenError} {
      cuts := [c];
    } else {
      var rest := TokensCover(s[r.length..]);
      cuts := [c] + rest;
      TokensNext(s, r.token, r.length);
      CoversStep(s, r.token, c, Tokens(s[r.length..]), rest);
    }
  }

  // ----- writing tokens -----

  /** What a character after a backslash denotes. */
  predicate Denotes(e: char, c: char) {
    if e == 'n' then c == '\n' else if e == 't' then c == '\t' else if e == 'r' then c == '\r' else c == e
  }

  /** The body of a string between its quotes: every character stands for itself or is denoted after a
      backslash, as the quote and the backslash must be. */
  predicate Escapes(body: string, content: string, quote: char)
    decreases |content|
  {
    if content == "" then body == ""
    else
      || (body != "" && body[0] == content[0] && content[0] !in {quote, '\\'}
        && Escapes(body[1..], content[1..], quote))
      || (|body| > 1 && body[0] == '\\' && Denotes(body[1], content[0]) && Escapes(body[2..], content[1..], quote))
  }

  predicate IsQuote(c: char) {
    c == '"' || c == '\''
  }

  /** The text is a way to write the token. */
  predicate Spells(text: string, t: Token) {
    if t.kind == TokenString then
      |text| > 1 && IsQuote(text[0]) && text[|text| - 1] == text[0]
      && Escapes(text[1..|text| - 1], t.text, text[0])
    else if t.kind == TokenParam then text == "@" + t.text || text == "$" + t.text
    else text == t.text
  }

  /** Quoted with either quote and escaped in any way, any bytes are read back. */
  lemma {:induction false} QuotedReads(body: string, content: string, quote: char, rest: string)
    requires IsQuote(quote) && Escapes(body, content, quote)
    ensures ReadQuoted(body + [quote] + rest, quote) == Some((content, |body| + 1))
    decreases |content|
  {
    var text := body + [quote] + rest;
    if content != "" {
      assert [content[0]] + content[1..] == content;
      if body[0] == content[0] && content[0] !in {quote, '\\'} && Escapes(body[1..], content[1..], quote) {
        QuotedReads(body[1..], content[1..], quote, rest);
        assert text[1..] == body[1..] + [quote] + rest;
      } else {
        QuotedReads(body[2..], content[1..], quote, rest);
        assert text[2..] == body[2..] + [quote] + rest;
      }
    }
  }

  /** One way to write each token. */
  function Escape(s: string): string {
    if s == "" then "" else (if s[0] == '"' || s[0] == '\\' then ['\\', s[0]] else [s[0]]) + Escape(s[1..])
  }

  function Spell(t: Token): string {
    if t.kind == TokenString then ['"'] + Escape(t.text) + ['"']
    else if t.kind == TokenParam then ['@'] + t.text
    else t.text
  }

  lemma {:induction false} EscapeEscapes(s: string)
    ensures Escapes(Escape(s), s, '"')
    decreases |s|
  {
    if s != "" {
      EscapeEscapes(s[1..]);
      if s[0] == '"' || s[0] == '\\' {
        assert Escape(s)[2..] == Escape(s[1..]);
      } else {
        assert Escape(s)[1..] == Escape(s[1..]);
      }
    }
  }

  lemma SpellSpells(t: Token)
    ensures Spells(Spell(t), t)
  {
    if t.kind == TokenString {
      EscapeEscapes(t.text);
      assert Spell(t)[1..|Spell(t)| - 1] == Escape(t.text);
    }
  }

  /** What may stand directly after a token: nothing that would make it longer. */
  predicate Stops(t: Token, rest: string) {
    if rest == "" || t.kind == TokenString || IsMark(t) then true
    else if t.kind == TokenNumber then Ends(rest)
    else if t.text == ">" then rest[0] != '='
    else if t.text == "<" then rest[0] != '=' && rest[0] != '>'
    else if IsOperator(t) then true
    else !WordChar(rest[0])
  }

  lemma WordReads(text: string, rest: string)
    requires AllOf(text, WordChar) && (rest == "" || !WordChar(rest[0]))
    ensures TakeWhile(text + rest, IsIdentChar) == text
  {
    assert AllOf(text, IsIdentChar);
    TakeStops(text, rest, IsIdentChar);
    TakeAll(text, IsIdentChar);
  }

  lemma StringReads(text: string, t: Token, rest: string)
    requires t.kind == TokenString && Spells(text, t)
    ensures Read(text + rest) == Reading(t, |text|)
  {
    var s, body := text + rest, text[1..|text| - 1];
    assert s[0] == text[0] && s[1..] == body + [text[0]] + rest;
    QuotedReads(body, t.text, text[0], rest);
  }

  lemma ParamReads(text: string, t: Token, rest: string)
    requires t.kind == TokenParam && WordLike(t.text) && Spells(text, t) && (rest == "" || !WordChar(rest[0]))
    ensures Read(text + rest) == Reading(t, |text|)
  {
    var s := text + rest;
    assert s[0] == text[0] && s[1] == t.text[0] && s[1..] == t.text + rest;
    WordReads(t.text, rest);
  }

  lemma NumberIsLiteral(c: char)
    requires Decimal.IsDigit(c) || c == '-'
    ensures !IsPunctuation(c) && !StartsOperator(c) && c !in {'"', '\'', '@', '$'} && !IsSpace(c)
  {
  }

  lemma ReadNumber(s: string)
    requires StartsNumber(s)
    ensures Read(s) == Reading(Token(TokenNumber, Number(s)), |Number(s)|)
  {
    NumberIsLiteral(s[0]);
    assert ReadLiteral(s) == Reading(Token(TokenNumber, Number(s)), |Number(s)|);
  }

  lemma ReadKeyword(s: string)
    requires s != "" && IsIdentStart(s[0])
    ensures Read(s) == ReadWord(s)
  {
  }

  lemma NumberReads(text: string, rest: string)
    requires IsNumeral(text) && Ends(rest)
    ensures Read(text + rest) == Reading(Token(TokenNumber, text), |text|)
  {
    NumeralReads(text, rest);
    ReadNumber(text + rest);
  }

  lemma KeywordReads(t: Token, rest: string)
    requires WordLike(t.text) && Means(t.text, t.kind) && (rest == "" || !WordChar(rest[0]))
    ensures Read(t.text + rest) == Reading(t, |t.text|)
  {
    assert (t.text + rest)[0] == t.text[0];
    ReadKeyword(t.text + rest);
    WordReads(t.text, rest);
    MeansExactly(t.text, t.kind);
  }

  lemma MarkReads(t: Token, rest: string)
    requires IsMark(t)
    ensures Read(t.text + rest) == Reading(t, |t.text|)
  {
    assert (t.text + rest)[0] == t.text[0];
  }

  lemma SymbolReads(t: Token, rest: string)
    requires IsOperator(t) && Stops(t, rest)
    ensures Read(t.text + rest) == Reading(t, |t.text|)
  {
    var s := t.text + rest;
    assert s[0] == t.text[0];
    if |t.text| > 1 {
      assert s[1] == t.text[1];
    } else if rest != "" {
      assert s[1] == rest[0];
    }
  }

  lemma SpellingStarts(text: string, t: Token)
    requires Lexable(t) && Spells(text, t)
    ensures text != "" && !IsSpace(text[0])
  {
    if t.kind == TokenNumber {
      NumeralStarts(t.text);
    } else if IsMark(t) || IsOperator(t) {
      SymbolStarts(t);
    } else if t.kind != TokenString && t.kind != TokenParam {
      WordStarts(t.text);
    }
  }

  lemma NumeralStarts(text: string)
    requires IsNumeral(text)
    ensures text != "" && !IsSpace(text[0])
  {
    NumeralReads(text, "");
    assert text + "" == text;
  }

  lemma SymbolStarts(t: Token)
    requires IsMark(t) || IsOperator(t)
    ensures t.text != "" && !IsSpace(t.text[0])
  {
  }

  lemma WordStarts(text: string)
    ensures WordLike(text) ==> !IsSpace(text[0])
  {
  }

  /** A token that some text is read as is read from any of its spellings. */
  lemma SpellingReads(text: string, t: Token, rest: string)
    requires Lexable(t) && Spells(text, t) && Stops(t, rest)
    ensures text != "" && !IsSpace(text[0])
    ensures Read(text + rest) == Reading(t, |text|)
  {
    SpellingStarts(text, t);
    if t.kind == TokenString {
      StringReads(text, t, rest);
    } else if t.kind == TokenParam {
      ParamReads(text, t, rest);
    } else if t.kind == TokenNumber {
      NumberReads(t.text, rest);
    } else if IsMark(t) {
      MarkReads(t, rest);
    } else if IsOperator(t) {
      SymbolReads(t, rest);
    } else {
      KeywordReads(t, rest);
    }
  }

  // ----- layouts -----

  /** A token as it is written, with the whitespace before it. */
  datatype Piece = Piece(gap: string, text: string, token: Token)

  function Layout(ps: seq<Piece>, end: string): string {
    if ps == [] then end else ps[0].gap + (ps[0].text + Layout(ps[1..], end))
  }

  function Written(ps: seq<Piece>): seq<Token> {
    if ps == [] then [Token(TokenEOF, "")] else [ps[0].token] + Written(ps[1..])
  }

  /** Tokens that can be read, with whitespace where one would run into the next. */
  ghost predicate WellSpaced(ps: seq<Piece>, end: string) {
    if ps == [] then IsBlank(end)
    else
      && Lexable(ps[0].token) && Spells(ps[0].text, ps[0].token) && IsBlank(ps[0].gap)
      && Stops(ps[0].token, Layout(ps[1..], end)) && WellSpaced(ps[1..], end)
  }

  lemma NextOfLayout(p: Piece, rest: string, s: string)
    requires Lexable(p.token) && Spells(p.text, p.token) && IsBlank(p.gap) && Stops(p.token, rest)
    requires s == p.gap + (p.text + rest)
    ensures NextToken(s) == Reading(p.token, |p.gap| + |p.text|)
    ensures s[|p.gap| + |p.text|..] == rest
    ensures p.token.kind !in {TokenEOF, TokenError}
  {
    SpellingReads(p.text, p.token, rest);
    BlankIsSpace(p.gap);
    SpacesStop(p.gap, p.text + rest);
    assert s[|p.gap|..] == p.text + rest;
    NotTheEnd(p.token);
  }

  lemma NotTheEnd(t: Token)
    requires Lexable(t)
    ensures t.kind !in {TokenEOF, TokenError}
  {
    if Means(t.text, t.kind) {
      assert t.kind == TokenIdent || KeywordText(t.kind) != "";
    }
  }

  lemma BlankIsSpace(gap: string)
    ensures IsBlank(gap) <==> AllOf(gap, IsSpace)
  {
  }

  lemma EndOfLayout(end: string)
    requires IsBlank(end)
    ensures Tokens(end) == [Token(TokenEOF, "")]
  {
    assert end + "" == end;
    SpacesStop(end, "");
  }

  lemma Combined(s: string, ps: seq<Piece>, n: nat, rest: string)
    requires ps != [] && NextToken(s) == Reading(ps[0].token, n) && ps[0].token.kind !in {TokenEOF, TokenError}
    requires s[n..] == rest && Tokens(rest) == Written(ps[1..])
    ensures Tokens(s) == Written(ps)
  {
    TokensNext(s, ps[0].token, n);
  }

  /** Spelled and laid out in any way, tokens are read back. */
  lemma {:induction false} LayoutLexes(ps: seq<Piece>, end: string)
    requires WellSpaced(ps, end)
    ensures Tokens(Layout(ps, end)) == Written(ps)
    decreases |ps|
  {
    if ps == [] {
      EndOfLayout(end);
    } else {
      var rest := Layout(ps[1..], end);
      NextOfLayout(ps[0], rest, Layout(ps, end));
      LayoutLexes(ps[1..], end);
      Combined(Layout(ps, end), ps, |ps[0].gap| + |ps[0].text|, rest);
    }
  }

  // ----- exactly the lists that some text is read as -----

  /** One space before each token. */
  function Plain(ts: seq<Token>): seq<Piece> {
    if ts == [] then [] else [Piece(" ", Spell(ts[0]), ts[0])] + Plain(ts[1..])
  }

  lemma SpaceStops(t: Token, rest: string)
    requires rest == "" || BlankChar(rest[0])
    ensures Stops(t, rest)
  {
  }

  lemma PlainStarts(ts: seq<Token>)
    ensures Layout(Plain(ts), "") == "" || Layout(Plain(ts), "")[0] == ' '
  {
  }

  lemma MoreSpaced(p: Piece, ps: seq<Piece>, end: string)
    requires WellSpaced(ps, end) && Lexable(p.token) && Spells(p.text, p.token) && IsBlank(p.gap)
    requires Stops(p.token, Layout(ps, end))
    ensures WellSpaced([p] + ps, end) && Written([p] + ps) == [p.token] + Written(ps)
  {
    assert ([p] + ps)[1..] == ps;
  }

  lemma PlainSpaced(t: Token, ts: seq<Token>)
    requires Lexable(t) && WellSpaced(Plain(ts), "")
    ensures var p := Piece(" ", Spell(t), t);
      WellSpaced([p] + Plain(ts), "") && Written([p] + Plain(ts)) == [t] + Written(Plain(ts))
  {
    SpellSpells(t);
    PlainStarts(ts);
    SpaceStops(t, Layout(Plain(ts), ""));
    MoreSpaced(Piece(" ", Spell(t), t), Plain(ts), "");
  }

  lemma {:induction false} PlainWritten(ts: seq<Token>)
    requires AllLexable(ts)
    ensures Written(Plain(ts)) == ts + [Token(TokenEOF, "")] && WellSpaced(Plain(ts), "")
    decreases |ts|
  {
    if ts != [] {
      PlainWritten(ts[1..]);
      PlainSpaced(ts[0], ts[1..]);
      assert [ts[0]] + (ts[1..] + [Token(TokenEOF, "")]) == ts + [Token(TokenEOF, "")];
    }
  }

  ghost predicate AllLexable(ts: seq<Token>) {
    forall i :: 0 <= i < |ts| ==> Lexable(ts[i])
  }

  /** A list of tokens is what some text is read as exactly when each of them is. */
  lemma LexedExactly(ts: seq<Token>)
    ensures AllLexable(ts) <==> exists s :: Tokens(s) == ts + [Token(TokenEOF, "")]
  {
    if AllLexable(ts) {
      PlainWritten(ts);
      LayoutLexes(Plain(ts), "");
    }
    if s :| Tokens(s) == ts + [Token(TokenEOF, "")] {
      TokensLexable(s);
      BeforeTheEnd(ts, Token(TokenEOF, ""));
    }
  }
}
