/** Tokens of the query language (internal/query/tokens.go). */
module QueryTokens {

  datatype TokenType =
    | TokenEOF | TokenError
    | TokenSelect | TokenCount | TokenSum | TokenAvg | TokenMin | TokenMax | TokenUpdate | TokenDelete
    | TokenFrom | TokenWhere | TokenAnd | TokenOr | TokenNot | TokenIn | TokenIs | TokenNull
    | TokenOrder | TokenBy | TokenAsc | TokenDesc | TokenLimit | TokenOffset | TokenWith | TokenInclude
    | TokenSet | TokenTrue | TokenFalse | TokenLike | TokenILike | TokenBetween | TokenHaving
    | TokenGroup | TokenGroupBy
    | TokenEquals | TokenNotEquals | TokenGreater | TokenGreaterEq | TokenLess | TokenLessEq
    | TokenContains | TokenStartsWith | TokenEndsWith
    | TokenIdent | TokenString | TokenNumber | TokenParam
    | TokenLParen | TokenRParen | TokenLBracket | TokenRBracket
    | TokenComma | TokenDot | TokenColon | TokenTilde

  datatype Token = Token(kind: TokenType, text: string)

  /** How a keyword, an operator or punctuation is usually spelled. */
  function Spelling(kind: TokenType): string {
    match kind
    case TokenSelect => "select" case TokenCount => "count" case TokenSum => "sum" case TokenAvg => "avg"
    case TokenMin => "min" case TokenMax => "max" case TokenUpdate => "update" case TokenDelete => "delete"
    case TokenFrom => "from" case TokenWhere => "where" case TokenAnd => "and" case TokenOr => "or"
    case TokenNot => "not" case TokenIn => "in" case TokenIs => "is" case TokenNull => "null"
    case TokenOrder => "order" case TokenBy => "by" case TokenAsc => "asc" case TokenDesc => "desc"
    case TokenLimit => "limit" case TokenOffset => "offset" case TokenWith => "with" case TokenInclude => "include"
    case TokenSet => "set" case TokenTrue => "true" case TokenFalse => "false" case TokenLike => "like"
    case TokenILike => "ilike" case TokenBetween => "between" case TokenHaving => "having" case TokenGroup => "group"
    case TokenContains => "contains" case TokenStartsWith => "startswith" case TokenEndsWith => "endswith"
    case TokenEquals => "=" case TokenNotEquals => "!=" case TokenGreater => ">" case TokenGreaterEq => ">="
    case TokenLess => "<" case TokenLessEq => "<="
    case TokenLParen => "(" case TokenRParen => ")" case TokenLBracket => "[" case TokenRBracket => "]"
    case TokenComma => "," case TokenDot => "." case TokenColon => ":" case TokenTilde => "~"
    case _ => ""
  }
}
