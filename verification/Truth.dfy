/** Three-valued truth and the database's own comparisons (SQL-92, ISO/IEC 9075:1992, section 8.12). */
module Truth {
  import opened QueryAst

  datatype Truth = True | False | Unknown

  function FromBool(b: bool): Truth {
    if b then True else False
  }

  function Not(t: Truth): Truth {
    match t
    case True => False
    case False => True
    case Unknown => Unknown
  }

  function And(s: Truth, t: Truth): Truth {
    if s == False || t == False then False
    else if s == True && t == True then True
    else Unknown
  }

  function Or(s: Truth, t: Truth): Truth {
    if s == True || t == True then True
    else if s == False && t == False then False
    else Unknown
  }

  /** A value bound to a placeholder: the value itself, or its printed form between two affixes. */
  datatype Arg = Val(v: Value) | Pattern(prefix: string, v: Value, suffix: string)

  /** A row maps column names to values; an absent column reads as NULL. */
  type Row = map<string, Value>

  function Column(row: Row, col: string): Value {
    if col in row then row[col] else Null
  }

  datatype Comparison = Equal | NotEqual | Greater | GreaterOrEqual | Less | LessOrEqual

  datatype SearchKind = Plain | Phrase | Fuzzy

  /** How the database compares non-null values. Everything proved holds for every interpretation. */
  datatype Interp = Interp(
    eq: (Value, Arg) -> bool,
    lt: (Value, Arg) -> bool,
    gt: (Value, Arg) -> bool,
    like: (Value, Arg, bool) -> bool,
    contains: (Value, Arg, bool) -> bool,
    search: (Value, Arg, SearchKind) -> bool)

  predicate AnyNull(v: Value, a: Arg) {
    v == Null || a == Val(Null)
  }

  function Compare(db: Interp, op: Comparison, v: Value, a: Arg): Truth {
    if AnyNull(v, a) then Unknown else FromBool(
      match op
      case Equal => db.eq(v, a)
      case NotEqual => !db.eq(v, a)
      case Greater => db.gt(v, a)
      case GreaterOrEqual => db.gt(v, a) || db.eq(v, a)
      case Less => db.lt(v, a)
      case LessOrEqual => db.lt(v, a) || db.eq(v, a))
  }

  function Like(db: Interp, v: Value, a: Arg, anyCase: bool): Truth {
    if AnyNull(v, a) then Unknown else FromBool(db.like(v, a, anyCase))
  }

  function Contains(db: Interp, v: Value, a: Arg, json: bool): Truth {
    if AnyNull(v, a) then Unknown else FromBool(db.contains(v, a, json))
  }

  function Search(db: Interp, v: Value, a: Arg, kind: SearchKind): Truth {
    if AnyNull(v, a) then Unknown else FromBool(db.search(v, a, kind))
  }
}
