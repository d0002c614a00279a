/** Programs the scope checker walks (internal/ast), and what it knows about a name
    (internal/validator/symbol_table.go, type_checker.go). */
module ScopeSyntax {
  import opened Results

  datatype Expr =
    | NoExpr
    | StringLiteral(text: string) | NumberLiteral | BoolLiteral(value: bool)
    | Identifier(name: string)
    | FunctionCall(callee: string, args: seq<Expr>)
    | ArrayLiteral(elements: seq<Expr>)
    | BinaryExpr(op: string, left: Expr, right: Expr)
    | UnaryExpr(op: string, operand: Expr)

  /** An absent block is an empty one. */
  datatype Stmt =
    | VarDecl(name: string, init: Expr)
    | Assignment(name: string, newValue: Expr)
    | IfStmt(condition: Expr, thenBlock: seq<Stmt>, elseBlock: seq<Stmt>)
    | ForLoop(variable: string, iterable: Expr, body: seq<Stmt>)
    | FunctionDecl(name: string, params: seq<string>, body: seq<Stmt>)
    | Block(statements: seq<Stmt>)
    | ReturnStmt(result: Expr)
    | ExecBlock

  datatype Type = TypeUnknown | TypeString | TypeNumber | TypeBool | TypeArray | TypeFunction | TypeVoid

  /** Variables and parameters are values; a function is known by its parameter count. */
  datatype Binding = Value | Function(arity: nat)

  /** One map per open scope, the innermost first. */
  type Stack<V> = seq<map<string, V>>

  function Find<V>(stack: Stack<V>, name: string): Option<V> {
    if stack == [] then None
    else if name in stack[0] then Some(stack[0][name])
    else Find(stack[1..], name)
  }

  function Bind<V>(stack: Stack<V>, name: string, v: V): Stack<V>
    requires stack != []
  {
    [stack[0][name := v]] + stack[1..]
  }

  /** Change the entry that `Find` finds, if there is one. */
  function Rebind<V>(stack: Stack<V>, name: string, v: V): (r: Stack<V>)
    ensures |r| == |stack|
  {
    if stack == [] then []
    else if name in stack[0] then [stack[0][name := v]] + stack[1..]
    else [stack[0]] + Rebind(stack[1..], name, v)
  }

  function InferType(types: Stack<Type>, e: Expr): Type {
    match e
    case StringLiteral(_) => TypeString
    case NumberLiteral => TypeNumber
    case BoolLiteral(_) => TypeBool
    case ArrayLiteral(_) => TypeArray
    case Identifier(name) => var t := Find(types, name); if t.Some? then t.value else TypeUnknown
    case BinaryExpr(op, left, right) => BinaryType(op, InferType(types, left), InferType(types, right))
    case UnaryExpr(op, _) => UnaryType(op)
    case FunctionCall(_, _) => TypeUnknown
    case NoExpr => TypeUnknown
  }

  function BinaryType(op: string, left: Type, right: Type): Type {
    if op in ["==", "!=", "<", ">", "<=", ">=", "and", "or"] then TypeBool
    else if op == "+" then if left == TypeString || right == TypeString then TypeString else TypeNumber
    else if op in ["-", "*", "/", "%"] then TypeNumber
    else TypeUnknown
  }

  function UnaryType(op: string): Type {
    if op in ["not", "!"] then TypeBool else if op == "-" then TypeNumber else TypeUnknown
  }

  /** Only arrays, and values whose type is not known, may be iterated over. */
  predicate MayIterate(t: Type) {
    t == TypeUnknown || t == TypeArray
  }
}
