/** The walk of internal/validator/validator.go: a specification that maps a program to the errors
    reported and the scopes left, and the object that does it over the scope chain. */
module Validator {
  import opened ScopeSyntax
  import SymbolTable

  datatype ValidationError =
    | DuplicateDeclaration(name: string)
    | UndefinedVariable(name: string)
    | AssignToFunction(name: string)
    | CannotIterate(typ: Type)
    | DuplicateParameter(name: string)
    | UndefinedFunction(name: string)
    | NotAFunction(name: string)
    | WrongArgCount(name: string, expected: nat, actual: nat)

  /** What the walk knows: the open scopes, and the errors so far. */
  datatype World = World(names: Stack<Binding>, types: Stack<Type>, errors: seq<ValidationError>) {
    function Report(e: ValidationError): World {
      this.(errors := errors + [e])
    }

    function Declare(name: string, b: Binding, t: Type): World
      requires names != [] && types != []
    {
      this.(names := Bind(names, name, b), types := Bind(types, name, t))
    }

    function Enter(): World {
      this.(names := [map[]] + names, types := [map[]] + types)
    }

    function Exit(): World
      requires names != [] && types != []
    {
      this.(names := names[1..], types := types[1..])
    }

    predicate Open() {
      names != [] && |types| == |names|
    }
  }

  // ----- expressions -----

  function CheckExpr(names: Stack<Binding>, e: Expr): seq<ValidationError>
    decreases e
  {
    match e
    case Identifier(name) => if Find(names, name).None? then [UndefinedVariable(name)] else []
    case FunctionCall(callee, args) => CheckExprs(names, args) + CheckCall(names, callee, |args|)
    case ArrayLiteral(elements) => CheckExprs(names, elements)
    case BinaryExpr(_, left, right) => CheckExpr(names, left) + CheckExpr(names, right)
    case UnaryExpr(_, operand) => CheckExpr(names, operand)
    case NoExpr => []
    case StringLiteral(_) => []
    case NumberLiteral => []
    case BoolLiteral(_) => []
  }

  function CheckExprs(names: Stack<Binding>, es: seq<Expr>): seq<ValidationError>
    decreases es
  {
    if es == [] then [] else CheckExpr(names, es[0]) + CheckExprs(names, es[1..])
  }

  function CheckCall(names: Stack<Binding>, callee: string, count: nat): seq<ValidationError> {
    var b := Find(names, callee);
    if b.None? then [UndefinedFunction(callee)]
    else if b.value.Value? then [NotAFunction(callee)]
    else if count != b.value.arity then [WrongArgCount(callee, b.value.arity, count)]
    else []
  }

  // ----- statements -----

  function Checked(w: World, e: Expr): World {
    w.(errors := w.errors + CheckExpr(w.names, e))
  }

  /** The depth of the scope chain never changes across a statement. */
  function Walk(w: World, s: Stmt): (r: World)
    requires w.Open()
    ensures r.Open() && |r.names| == |w.names|
    decreases s
  {
    match s
    case VarDecl(name, init) =>
      var w1 := Checked(w, init);
      if name in w.names[0] then w1.Report(DuplicateDeclaration(name))
      else w1.Declare(name, Value, InferType(w.types, init))
    case Assignment(name, newValue) => Assigned(Checked(w, newValue), name, InferType(w.types, newValue))
    case IfStmt(condition, thenBlock, elseBlock) =>
      var w1 := WalkAll(Checked(w, condition).Enter(), thenBlock).Exit();
      WalkAll(w1.Enter(), elseBlock).Exit()
    case ForLoop(variable, iterable, body) =>
      var w1 := Checked(w, iterable);
      var t := InferType(w.types, iterable);
      var w2 := if MayIterate(t) then w1 else w1.Report(CannotIterate(t));
      WalkAll(w2.Enter().Declare(variable, Value, TypeUnknown), body).Exit()
    case FunctionDecl(name, params, body) =>
      if name in w.names[0] then w.Report(DuplicateDeclaration(name))
      else
        var w1 := w.Declare(name, Function(|params|), TypeFunction);
        WalkAll(DeclareParams(w1.Enter(), params, {}), body).Exit()
    case Block(statements) => WalkAll(w, statements)
    case ReturnStmt(result) => Checked(w, result)
    case ExecBlock => w
  }

  function Assigned(w: World, name: string, t: Type): World {
    var b := Find(w.names, name);
    if b.None? then w.Report(UndefinedVariable(name))
    else if b.value.Function? then w.Report(AssignToFunction(name))
    else if t == TypeUnknown then w
    else w.(types := Rebind(w.types, name, t))
  }

  function DeclareParams(w: World, params: seq<string>, seen: set<string>): (r: World)
    requires w.Open()
    ensures r.Open() && |r.names| == |w.names|
    decreases |params|
  {
    if params == [] then w
    else if params[0] in seen then DeclareParams(w.Report(DuplicateParameter(params[0])), params[1..], seen)
    else DeclareParams(w.Declare(params[0], Value, TypeUnknown), params[1..], seen + {params[0]})
  }

  function WalkAll(w: World, ss: seq<Stmt>): (r: World)
    requires w.Open()
    ensures r.Open() && |r.names| == |w.names|
    decreases ss
  {
    if ss == [] then w else WalkAll(Walk(w, ss[0]), ss[1..])
  }

  /** The global scope before any statement. */
  function Builtins(): World {
    World([map["print" := Function(1), "len" := Function(1)]], [map["print" := TypeUnknown, "len" := TypeUnknown]], [])
  }

  // ----- the checker -----

  class Checker {
    const symbols: SymbolTable.Table
    var errors: seq<ValidationError>

    ghost predicate Valid()
      reads this, symbols, symbols.Repr
    {
      this !in symbols.Repr && symbols.Valid()
    }

    ghost function State(): (w: World)
      reads this, symbols, symbols.Repr
      requires Valid()
      ensures w.Open() && |w.names| == |symbols.chain|
    {
      World(symbols.Names(), symbols.Types(), errors)
    }

    constructor ()
      ensures Valid() && fresh(symbols) && fresh(symbols.Repr) && State() == Builtins()
    {
      symbols := new SymbolTable.Table();
      errors := [];
    }

    method InferType(e: Expr) returns (t: Type)
      requires Valid()
      ensures t == ScopeSyntax.InferType(symbols.Types(), e)
      decreases e
    {
      match e
      case StringLiteral(_) => t := TypeString;
      case NumberLiteral => t := TypeNumber;
      case BoolLiteral(_) => t := TypeBool;
      case ArrayLiteral(_) => t := TypeArray;
      case Identifier(name) =>
        var sym := symbols.Lookup(name);
        t := if sym != null then sym.typ else TypeUnknown;
      case BinaryExpr(op, left, right) =>
        var l := InferType(left);
        var r := InferType(right);
        t := BinaryType(op, l, r);
      case UnaryExpr(op, _) => t := UnaryType(op);
      case FunctionCall(_, _) => t := TypeUnknown;
      case NoExpr => t := TypeUnknown;
    }

    method ValidateExpression(e: Expr)
      requires Valid()
      modifies `errors
      ensures Valid() && errors == old(errors) + CheckExpr(symbols.Names(), e)
      decreases e
    {
      match e
      case Identifier(name) => ValidateIdentifier(name);
      case FunctionCall(callee, args) => ValidateFunctionCall(e);
      case ArrayLiteral(elements) => ValidateExpressions(elements);
      case BinaryExpr(_, left, right) =>
        ValidateExpression(left);
        ValidateExpression(right);
      case UnaryExpr(_, operand) => ValidateExpression(operand);
      case NoExpr =>
      case StringLiteral(_) =>
      case NumberLiteral =>
      case BoolLiteral(_) =>
    }

    method ValidateIdentifier(name: string)
      requires Valid()
      modifies `errors
      ensures Valid() && errors == old(errors) + CheckExpr(symbols.Names(), Identifier(name))
    {
      var sym := symbols.Lookup(name);
      if sym == null {
        errors := errors + [UndefinedVariable(name)];
      }
    }

    method ValidateExpressions(es: seq<Expr>)
      requires Valid()
      modifies `errors
      ensures Valid() && errors == old(errors) + CheckExprs(symbols.Names(), es)
      decreases es, 0
    {
      for i := 0 to |es|
        invariant Valid()
        invariant errors + CheckExprs(symbols.Names(), es[i..]) == old(errors) + CheckExprs(symbols.Names(), es)
      {
        ValidateExpression(es[i]);
        assert es[i..][0] == es[i] && es[i..][1..] == es[i + 1..];
      }
    }

    method ValidateFunctionCall(e: Expr)
      requires Valid() && e.FunctionCall?
      modifies `errors
      ensures Valid() && errors == old(errors) + CheckExpr(symbols.Names(), e)
      decreases e, 0
    {
      ValidateExpressions(e.args);
      ValidateCallee(e.callee, |e.args|);
    }

    /** The callee is visible, a function, and called with as many arguments as it has parameters. */
    method ValidateCallee(callee: string, count: nat)
      requires Valid()
      modifies `errors
      ensures Valid() && errors == old(errors) + CheckCall(symbols.Names(), callee, count)
    {
      var sym := symbols.Lookup(callee);
      if sym == null {
        errors := errors + [UndefinedFunction(callee)];
      } else if sym.kind != SymbolTable.SymbolFunction {
        errors := errors + [NotAFunction(callee)];
      } else if count != sym.paramCount {
        errors := errors + [WrongArgCount(callee, sym.paramCount, count)];
      }
    }

    // ----- the steps of the walk, on the state as a whole -----

    method Report(e: ValidationError)
      requires Valid()
      modifies `errors
      ensures Valid() && State() == old(State()).Report(e)
    {
      errors := errors + [e];
    }

    method Check(e: Expr)
      requires Valid()
      modifies `errors
      ensures Valid() && State() == Checked(old(State()), e)
    {
      ValidateExpression(e);
    }

    method Enter()
      requires Valid()
      modifies symbols
      ensures Valid() && fresh(symbols.Repr - old(symbols.Repr)) && State() == old(State()).Enter()
      ensures symbols.chain[1..] == old(symbols.chain) && errors == old(errors)
    {
      symbols.EnterScope();
    }

    /** A scope that was entered is left. */
    method Exit()
      requires Valid() && |symbols.chain| > 1
      modifies symbols
      ensures Valid() && symbols.Repr == old(symbols.Repr) && State() == old(State()).Exit()
      ensures symbols.chain == old(symbols.chain)[1..] && errors == old(errors)
    {
      symbols.ExitScope();
    }

    method Declare(name: string, kind: SymbolTable.SymbolKind, t: Type, paramCount: nat)
      requires Valid() && name !in State().names[0]
      modifies symbols, symbols.Repr
      ensures Valid() && fresh(symbols.Repr - old(symbols.Repr)) && symbols.chain == old(symbols.chain)
      ensures State() == old(State()).Declare(name, SymbolTable.Bound(kind, paramCount), t)
    {
      var ok := symbols.DeclareWithType(name, kind, t, paramCount);
      assert ok;
    }

    method IsDeclared(name: string) returns (found: bool)
      requires Valid()
      ensures found == (name in State().names[0])
    {
      found := symbols.LookupLocal(name);
    }

    method ValidateStatement(s: Stmt)
      requires Valid()
      modifies this, symbols, symbols.Repr
      ensures Valid() && fresh(symbols.Repr - old(symbols.Repr)) && symbols.chain == old(symbols.chain)
      ensures State() == Walk(old(State()), s)
      decreases s
    {
      match s
      case VarDecl(name, init) => ValidateVarDecl(name, init);
      case Assignment(name, newValue) => ValidateAssignment(name, newValue);
      case IfStmt(condition, thenBlock, elseBlock) =>
        Check(condition);
        ValidateInner(thenBlock);
        ValidateInner(elseBlock);
      case ForLoop(_, _, _) => ValidateForLoop(s);
      case FunctionDecl(_, _, _) => ValidateFunctionDecl(s);
      case Block(statements) => ValidateBlock(statements);
      case ReturnStmt(result) => Check(result);
      case ExecBlock =>
    }

    /** A block in a scope of its own. */
    method ValidateInner(ss: seq<Stmt>)
      requires Valid()
      modifies this, symbols, symbols.Repr
      ensures Valid() && fresh(symbols.Repr - old(symbols.Repr)) && symbols.chain == old(symbols.chain)
      ensures State() == WalkAll(old(State()).Enter(), ss).Exit()
      decreases ss, 1
    {
      Enter();
      ValidateBlock(ss);
      Exit();
    }

    method ValidateForLoop(s: Stmt)
      requires Valid() && s.ForLoop?
      modifies this, symbols, symbols.Repr
      ensures Valid() && fresh(symbols.Repr - old(symbols.Repr)) && symbols.chain == old(symbols.chain)
      ensures State() == Walk(old(State()), s)
      decreases s, 0
    {
      Check(s.iterable);
      var t := InferType(s.iterable);
      if !MayIterate(t) {
        Report(CannotIterate(t));
      }
      ValidateLoopBody(s.variable, s.body);
    }

    /** The body shares the scope of the loop variable, whose type is not known. */
    method ValidateLoopBody(variable: string, body: seq<Stmt>)
      requires Valid()
      modifies this, symbols, symbols.Repr
      ensures Valid() && fresh(symbols.Repr - old(symbols.Repr)) && symbols.chain == old(symbols.chain)
      ensures State() == WalkAll(old(State()).Enter().Declare(variable, Value, TypeUnknown), body).Exit()
      decreases body, 1
    {
      EnterLoop(variable);
      ValidateBlock(body);
      Exit();
    }

    method EnterLoop(variable: string)
      requires Valid()
      modifies symbols, symbols.Repr
      ensures Valid() && fresh(symbols.Repr - old(symbols.Repr)) && symbols.chain[1..] == old(symbols.chain)
      ensures State() == old(State()).Enter().Declare(variable, Value, TypeUnknown)
    {
      Enter();
      Declare(variable, SymbolTable.SymbolVariable, TypeUnknown, 0);
    }

    /** The body shares the scope of the parameters. */
    method ValidateFunctionBody(params: seq<string>, body: seq<Stmt>)
      requires Valid()
      modifies this, symbols, symbols.Repr
      ensures Valid() && fresh(symbols.Repr - old(symbols.Repr)) && symbols.chain == old(symbols.chain)
      ensures State() == WalkAll(DeclareParams(old(State()).Enter(), params, {}), body).Exit()
      decreases body, 1
    {
      Enter();
      ValidateParams(params);
      ValidateBlock(body);
      Exit();
    }

    method ValidateFunctionDecl(s: Stmt)
      requires Valid() && s.FunctionDecl?
      modifies this, symbols, symbols.Repr
      ensures Valid() && fresh(symbols.Repr - old(symbols.Repr)) && symbols.chain == old(symbols.chain)
      ensures State() == Walk(old(State()), s)
      decreases s, 0
    {
      var found := IsDeclared(s.name);
      if found {
        Report(DuplicateDeclaration(s.name));
        return;
      }
      DefineFunction(s.name, s.params, s.body);
    }

    /** The function is declared before its body, so the body may call it. */
    method DefineFunction(name: string, params: seq<string>, body: seq<Stmt>)
      requires Valid() && name !in State().names[0]
      modifies this, symbols, symbols.Repr
      ensures Valid() && fresh(symbols.Repr - old(symbols.Repr)) && symbols.chain == old(symbols.chain)
      ensures State()
           == WalkAll(DeclareParams(old(State()).Declare(name, Function(|params|), TypeFunction).Enter(), params, {}),
                      body).Exit()
      decreases body, 2
    {
      Declare(name, SymbolTable.SymbolFunction, TypeFunction, |params|);
      ValidateFunctionBody(params, body);
    }

    method ValidateVarDecl(name: string, init: Expr)
      requires Valid()
      modifies this, symbols, symbols.Repr
      ensures Valid() && fresh(symbols.Repr - old(symbols.Repr)) && symbols.chain == old(symbols.chain)
      ensures State() == Walk(old(State()), VarDecl(name, init))
    {
      Check(init);
      var found := IsDeclared(name);
      if found {
        Report(DuplicateDeclaration(name));
        return;
      }
      var t := InferType(init);
      Declare(name, SymbolTable.SymbolVariable, t, 0);
    }

    method ValidateAssignment(name: string, newValue: Expr)
      requires Valid()
      modifies this, symbols, symbols.Repr
      ensures Valid() && fresh(symbols.Repr - old(symbols.Repr)) && symbols.chain == old(symbols.chain)
      ensures State() == Walk(old(State()), Assignment(name, newValue))
    {
      Check(newValue);
      var t := InferType(newValue);
      Assign(name, t);
    }

    /** Only a visible variable may be assigned; a known type replaces the old one. */
    method Assign(name: string, t: Type)
      requires Valid()
      modifies this, symbols, symbols.Repr
      ensures Valid() && symbols.Repr == old(symbols.Repr) && symbols.chain == old(symbols.chain)
      ensures State() == Assigned(old(State()), name, t)
    {
      var sym := symbols.Lookup(name);
      if sym == null {
        Report(UndefinedVariable(name));
      } else if sym.kind == SymbolTable.SymbolFunction {
        Report(AssignToFunction(name));
      } else if t != TypeUnknown {
        symbols.UpdateType(name, t);
      }
    }

    /** The innermost scope is the function's own, and still empty. */
    method ValidateParams(params: seq<string>)
      requires Valid() && State().names[0] == map[]
      modifies this, symbols, symbols.Repr
      ensures Valid() && fresh(symbols.Repr - old(symbols.Repr)) && symbols.chain == old(symbols.chain)
      ensures State() == DeclareParams(old(State()), params, {})
    {
      var seen: set<string> := {};
      for i := 0 to |params|
        invariant Valid() && fresh(symbols.Repr - old(symbols.Repr)) && symbols.chain == old(symbols.chain)
        invariant State().names[0].Keys == seen
        invariant DeclareParams(State(), params[i..], seen) == DeclareParams(old(State()), params, {})
      {
        assert params[i..][0] == params[i] && params[i..][1..] == params[i + 1..];
        if params[i] in seen {
          Report(DuplicateParameter(params[i]));
        } else {
          seen := seen + {params[i]};
          Declare(params[i], SymbolTable.SymbolParameter, TypeUnknown, 0);
        }
      }
    }

    method ValidateBlock(ss: seq<Stmt>)
      requires Valid()
      modifies this, symbols, symbols.Repr
      ensures Valid() && fresh(symbols.Repr - old(symbols.Repr)) && symbols.chain == old(symbols.chain)
      ensures State() == WalkAll(old(State()), ss)
      decreases ss, 0
    {
      for i := 0 to |ss|
        invariant Valid() && fresh(symbols.Repr - old(symbols.Repr)) && symbols.chain == old(symbols.chain)
        invariant WalkAll(State(), ss[i..]) == WalkAll(old(State()), ss)
      {
        assert ss[i..][0] == ss[i] && ss[i..][1..] == ss[i + 1..];
        ValidateStatement(ss[i]);
      }
    }
  }

  /** Check a program in a new checker; no errors means it is accepted. */
  method Validate(program: seq<Stmt>) returns (errors: seq<ValidationError>)
    ensures errors == WalkAll(Builtins(), program).errors
  {
    var checker := new Checker();
    checker.ValidateBlock(program);
    errors := checker.errors;
  }
}
