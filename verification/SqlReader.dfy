/** The emitted SQL as tokens, and an independent reader of it. Search conditions follow the
    grammar of SQL-92 (ISO/IEC 9075:1992), section 8.12: NOT binds tighter than AND, AND tighter
    than OR, both connectives associate to the left. Nothing here refers to the compiler. */
module SqlReader {
  import opened Results
  import opened Truth
  import QueryAst

  datatype Func =
    | Count | Sum | Avg | Min | Max | Now
    | ArrayAppend | ArrayRemove
    | ToTsquery | PhrasetoTsquery | PlaintoTsquery

  datatype Tok =
    | Ident(name: string)
    | Ph(index: nat)
    | Number(n: int)
    | SimpleLit
    | FuncName(f: Func)
    | LParen | RParen | Comma | Star | Plus | Minus
    | Cmp(op: Comparison)
    | AtGt | AsJsonb | TsMatch
    | KwAnd | KwOr | KwNot | KwIn | KwIs | KwNull | KwBetween | KwLike | KwILike | KwTrue | KwFalse
    | KwSelect | KwFrom | KwWhere | KwGroup | KwOrder | KwBy | KwHaving | KwAsc | KwDesc
    | KwLimit | KwOffset | KwUpdate | KwSet | KwDelete

  type Sql = seq<Tok>

  datatype SqlExpr =
    | EOr(left: SqlExpr, right: SqlExpr)
    | EAnd(left: SqlExpr, right: SqlExpr)
    | ENot(arg: SqlExpr)
    | ELiteral(b: bool)
    | ECompare(col: string, op: Comparison, ph: nat)
    | EIn(col: string, negated: bool, phs: seq<nat>)
    | EBetween(col: string, low: nat, high: nat)
    | EIsNull(col: string, negated: bool)
    | ELike(col: string, anyCase: bool, ph: nat)
    | EContains(col: string, json: bool, ph: nat)
    | ESearch(col: string, kind: SearchKind, ph: nat)

  /** The first token, or a token no rule below accepts. */
  function Head(ts: Sql): (t: Tok)
    ensures ts == [] ==> t == RParen
  {
    if ts == [] then RParen else ts[0]
  }

  // ----- predicates -----

  /** `$i, $j, ... )` after the opening parenthesis, at least one placeholder. */
  function ReadPlaceholders(ts: Sql): (r: Option<(seq<nat>, Sql)>)
    ensures r.Some? ==> |r.value.1| < |ts|
  {
    if |ts| >= 2 && ts[0].Ph? then
      if ts[1] == RParen then Some(([ts[0].index], ts[2..]))
      else if ts[1] == Comma then
        var more :- ReadPlaceholders(ts[2..]);
        Some(([ts[0].index] + more.0, more.1))
      else None
    else None
  }

  function ReadOperand(ts: Sql, e: nat -> SqlExpr): (r: Option<(SqlExpr, Sql)>)
    ensures r.Some? ==> |r.value.1| < |ts|
  {
    if ts != [] && ts[0].Ph? then Some((e(ts[0].index), ts[1..])) else None
  }

  function ReadInList(col: string, negated: bool, ts: Sql): (r: Option<(SqlExpr, Sql)>)
    ensures r.Some? ==> |r.value.1| < |ts|
  {
    if ts == [] || ts[0] != LParen then None else
    var list :- ReadPlaceholders(ts[1..]);
    Some((EIn(col, negated, list.0), list.1))
  }

  function ReadSearch(col: string, ts: Sql): (r: Option<(SqlExpr, Sql)>)
    ensures r.Some? ==> |r.value.1| < |ts|
  {
    if |ts| >= 6 && ts[0].FuncName? && ts[1..4] == [LParen, SimpleLit, Comma] && ts[4].Ph? && ts[5] == RParen then
      match ts[0].f
      case ToTsquery => Some((ESearch(col, Fuzzy, ts[4].index), ts[6..]))
      case PhrasetoTsquery => Some((ESearch(col, Phrase, ts[4].index), ts[6..]))
      case PlaintoTsquery => Some((ESearch(col, Plain, ts[4].index), ts[6..]))
      case _ => None
    else None
  }

  /** What may follow a column name. */
  function ReadTest(col: string, ts: Sql): (r: Option<(SqlExpr, Sql)>)
    ensures r.Some? ==> |r.value.1| < |ts|
  {
    if ts == [] then None else
    match ts[0]
    case Cmp(op) => ReadOperand(ts[1..], (i: nat) => ECompare(col, op, i))
    case KwLike => ReadOperand(ts[1..], (i: nat) => ELike(col, false, i))
    case KwILike => ReadOperand(ts[1..], (i: nat) => ELike(col, true, i))
    case AtGt =>
      if |ts| >= 3 && ts[1].Ph? && ts[2] == AsJsonb then Some((EContains(col, true, ts[1].index), ts[3..]))
      else ReadOperand(ts[1..], (i: nat) => EContains(col, false, i))
    case TsMatch => ReadSearch(col, ts[1..])
    case KwIn => ReadInList(col, false, ts[1..])
    case KwNot => if |ts| >= 2 && ts[1] == KwIn then ReadInList(col, true, ts[2..]) else None
    case KwBetween =>
      if |ts| >= 4 && ts[1].Ph? && ts[2] == KwAnd && ts[3].Ph?
      then Some((EBetween(col, ts[1].index, ts[3].index), ts[4..])) else None
    case KwIs =>
      if |ts| >= 2 && ts[1] == KwNull then Some((EIsNull(col, false), ts[2..]))
      else if |ts| >= 3 && ts[1] == KwNot && ts[2] == KwNull then Some((EIsNull(col, true), ts[3..]))
      else None
    case _ => None
  }

  // ----- search conditions -----

  /** boolean primary: a predicate, or a parenthesised search condition */
  function ReadPrimary(ts: Sql): (r: Option<(SqlExpr, Sql)>)
    ensures r.Some? ==> |r.value.1| < |ts|
    decreases |ts|, 0
  {
    if ts == [] then None else
    match ts[0]
    case KwTrue => Some((ELiteral(true), ts[1..]))
    case KwFalse => Some((ELiteral(false), ts[1..]))
    case Ident(col) => ReadTest(col, ts[1..])
    case LParen =>
      var inner :- ReadCondition(ts[1..]);
      if Head(inner.1) == RParen && inner.1 != [] then Some((inner.0, inner.1[1..])) else None
    case _ => None
  }

  /** boolean factor: [ NOT ] boolean primary */
  function ReadFactor(ts: Sql): (r: Option<(SqlExpr, Sql)>)
    ensures r.Some? ==> |r.value.1| < |ts|
    decreases |ts|, 1
  {
    if ts != [] && ts[0] == KwNot then
      var p :- ReadPrimary(ts[1..]);
      Some((ENot(p.0), p.1))
    else ReadPrimary(ts)
  }

  /** boolean term: factors joined by AND */
  function ReadTerm(ts: Sql): (r: Option<(SqlExpr, Sql)>)
    ensures r.Some? ==> |r.value.1| < |ts|
    decreases |ts|, 2
  {
    var f :- ReadFactor(ts);
    ReadAnds(f.0, f.1)
  }

  function ReadAnds(acc: SqlExpr, ts: Sql): (r: Option<(SqlExpr, Sql)>)
    ensures r.Some? ==> |r.value.1| <= |ts|
    decreases |ts|, 1
  {
    if ts != [] && ts[0] == KwAnd then
      var f :- ReadFactor(ts[1..]);
      ReadAnds(EAnd(acc, f.0), f.1)
    else Some((acc, ts))
  }

  /** search condition: terms joined by OR */
  function ReadCondition(ts: Sql): (r: Option<(SqlExpr, Sql)>)
    ensures r.Some? ==> |r.value.1| < |ts|
    decreases |ts|, 3
  {
    var t :- ReadTerm(ts);
    ReadOrs(t.0, t.1)
  }

  function ReadOrs(acc: SqlExpr, ts: Sql): (r: Option<(SqlExpr, Sql)>)
    ensures r.Some? ==> |r.value.1| <= |ts|
    decreases |ts|, 3
  {
    if ts != [] && ts[0] == KwOr then
      var t :- ReadTerm(ts[1..]);
      ReadOrs(EOr(acc, t.0), t.1)
    else Some((acc, ts))
  }

  // ----- evaluation -----

  /** The argument bound to `$i`; numbering starts at 1. */
  function Bound(args: seq<Arg>, i: nat): Arg {
    if 1 <= i <= |args| then args[i - 1] else Val(QueryAst.Null)
  }

  /** SQL-92 section 8.4: `x IN (a, b, ...)` is `x = a OR x = b OR ...`. */
  function EvalIn(db: Interp, v: QueryAst.Value, phs: seq<nat>, args: seq<Arg>): Truth {
    if phs == [] then False
    else Or(Compare(db, Equal, v, Bound(args, phs[0])), EvalIn(db, v, phs[1..], args))
  }

  function Eval(db: Interp, e: SqlExpr, row: Row, args: seq<Arg>): Truth {
    match e
    case EOr(l, r) => Or(Eval(db, l, row, args), Eval(db, r, row, args))
    case EAnd(l, r) => And(Eval(db, l, row, args), Eval(db, r, row, args))
    case ENot(a) => Not(Eval(db, a, row, args))
    case ELiteral(b) => FromBool(b)
    case ECompare(col, op, ph) => Compare(db, op, Column(row, col), Bound(args, ph))
    case EIn(col, neg, phs) =>
      var t := EvalIn(db, Column(row, col), phs, args);
      if neg then Not(t) else t
    case EBetween(col, low, high) =>
      And(Compare(db, GreaterOrEqual, Column(row, col), Bound(args, low)),
          Compare(db, LessOrEqual, Column(row, col), Bound(args, high)))
    case EIsNull(col, neg) => FromBool((Column(row, col) == QueryAst.Null) != neg)
    case ELike(col, anyCase, ph) => Like(db, Column(row, col), Bound(args, ph), anyCase)
    case EContains(col, json, ph) => Contains(db, Column(row, col), Bound(args, ph), json)
    case ESearch(col, kind, ph) => Search(db, Column(row, col), Bound(args, ph), kind)
  }
}
