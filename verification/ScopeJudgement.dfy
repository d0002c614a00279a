/** What the scope checker accepts, without its walk: a lexical judgement on names and arities, and
    a judgement on what is iterated over; and that a program has no errors exactly under both. */
module ScopeJudgement {
  import opened Results
  import opened ScopeSyntax
  import opened Validator

  // ----- what is visible -----

  /** The innermost scope that has the name gives it this meaning. */
  ghost predicate Sees<V>(scopes: Stack<V>, name: string, v: V) {
    exists k :: 0 <= k < |scopes| && name in scopes[k] && scopes[k][name] == v && Hidden(scopes, name, k)
  }

  /** None of the `k` innermost scopes has the name. */
  predicate Hidden<V>(scopes: Stack<V>, name: string, k: nat)
    requires k <= |scopes|
  {
    forall j :: 0 <= j < k ==> name !in scopes[j]
  }

  lemma {:induction false} FindExactly<V>(scopes: Stack<V>, name: string)
    ensures Find(scopes, name).Some? ==> Sees(scopes, name, Find(scopes, name).value)
    ensures Find(scopes, name).None? ==> Hidden(scopes, name, |scopes|)
    decreases |scopes|
  {
    if scopes != [] {
      if name in scopes[0] {
        assert Hidden(scopes, name, 0);
      } else {
        FindExactly(scopes[1..], name);
        if Find(scopes, name).Some? {
          var v := Find(scopes, name).value;
          var k :| 0 <= k < |scopes[1..]| && name in scopes[1..][k] && scopes[1..][k][name] == v
            && Hidden(scopes[1..], name, k);
          assert name in scopes[k + 1] && scopes[k + 1][name] == v;
          forall j | 0 <= j < k + 1
            ensures name !in scopes[j]
          {
            assert j > 0 ==> scopes[j] == scopes[1..][j - 1];
          }
          assert Hidden(scopes, name, k + 1);
        } else {
          assert forall j :: 1 <= j < |scopes| ==> scopes[j] == scopes[1..][j - 1];
        }
      }
    }
  }

  /** A declaration concerns its name in the innermost scope alone. */
  lemma BindExactly<V>(scopes: Stack<V>, name: string, v: V, other: string)
    requires scopes != []
    ensures Bind(scopes, name, v)[1..] == scopes[1..]
    ensures Find(Bind(scopes, name, v), other) == if other == name then Some(v) else Find(scopes, other)
  {
  }

  /** A new type goes to the scope that gives the name its meaning, and no other entry changes. */
  lemma {:induction false} RebindExactly<V>(scopes: Stack<V>, name: string, v: V, k: nat)
    requires k < |scopes| && name in scopes[k] && Hidden(scopes, name, k)
    ensures Rebind(scopes, name, v) == scopes[k := scopes[k][name := v]]
    decreases k
  {
    if k > 0 {
      assert name !in scopes[0];
      assert forall j :: 0 <= j < k - 1 ==> scopes[1..][j] == scopes[j + 1];
      RebindExactly(scopes[1..], name, v, k - 1);
      assert [scopes[0]] + scopes[1..][k - 1 := scopes[k][name := v]] == scopes[k := scopes[k][name := v]];
    } else {
      assert [scopes[0][name := v]] + scopes[1..] == scopes[0 := scopes[0][name := v]];
    }
  }

  // ----- types of expressions -----

  const TESTS: set<string> := {"<", "<=", ">", ">=", "==", "!=", "and", "or"}

  const ARITHMETIC: set<string> := {"+", "-", "*", "/", "%"}

  /** What can be told of an expression from its form: literals have their types, tests and negations
      are booleans, arithmetic makes numbers, but `+` with a string makes a string. */
  predicate HasType(types: Stack<Type>, e: Expr, t: Type)
    decreases e
  {
    match e
    case StringLiteral(_) => t == TypeString
    case NumberLiteral => t == TypeNumber
    case BoolLiteral(_) => t == TypeBool
    case ArrayLiteral(_) => t == TypeArray
    case Identifier(name) => Find(types, name) == Some(t) || (Find(types, name).None? && t == TypeUnknown)
    case BinaryExpr(op, left, right) =>
      && (op in TESTS ==> t == TypeBool)
      && (op in ARITHMETIC ==>
            t == if op == "+" && (HasType(types, left, TypeString) || HasType(types, right, TypeString))
                 then TypeString else TypeNumber)
      && (op !in TESTS + ARITHMETIC ==> t == TypeUnknown)
    case UnaryExpr(op, _) =>
      t == if op == "!" || op == "not" then TypeBool else if op == "-" then TypeNumber else TypeUnknown
    case FunctionCall(_, _) => t == TypeUnknown
    case NoExpr => t == TypeUnknown
  }

  /** The checker infers the one type an expression has. */
  lemma {:induction false} InfersExactly(types: Stack<Type>, e: Expr, t: Type)
    ensures HasType(types, e, t) <==> InferType(types, e) == t
    decreases e
  {
    if e.BinaryExpr? {
      InfersExactly(types, e.left, TypeString);
      InfersExactly(types, e.right, TypeString);
    }
  }

  // ----- names and arities -----

  predicate ScopedExpr(names: Stack<Binding>, e: Expr)
    decreases e
  {
    match e
    case Identifier(name) => Find(names, name).Some?
    case FunctionCall(callee, args) =>
      Find(names, callee) == Some(Function(|args|)) && forall i :: 0 <= i < |args| ==> ScopedExpr(names, args[i])
    case ArrayLiteral(elements) => forall i :: 0 <= i < |elements| ==> ScopedExpr(names, elements[i])
    case BinaryExpr(_, left, right) => ScopedExpr(names, left) && ScopedExpr(names, right)
    case UnaryExpr(_, operand) => ScopedExpr(names, operand)
    case NoExpr => true
    case StringLiteral(_) => true
    case NumberLiteral => true
    case BoolLiteral(_) => true
  }

  /** The names a statement adds to the scope it stands in, read off its syntax: a bare block adds
      its own, everything else nested stays inside. */
  function Introduced(s: Stmt): map<string, Binding>
    decreases s
  {
    match s
    case VarDecl(name, _) => map[name := Value]
    case FunctionDecl(name, params, _) => map[name := Function(|params|)]
    case Block(statements) => IntroducedAll(statements)
    case Assignment(_, _) => map[]
    case IfStmt(_, _, _) => map[]
    case ForLoop(_, _, _) => map[]
    case ReturnStmt(_) => map[]
    case ExecBlock => map[]
  }

  function IntroducedAll(ss: seq<Stmt>): map<string, Binding>
    decreases ss
  {
    if ss == [] then map[] else Introduced(ss[0]) + IntroducedAll(ss[1..])
  }

  function With(names: Stack<Binding>, more: map<string, Binding>): Stack<Binding>
    requires names != []
  {
    [names[0] + more] + names[1..]
  }

  function Each<V>(params: seq<string>, v: V): map<string, V> {
    map p | p in params :: v
  }

  predicate Distinct(params: seq<string>) {
    forall i, j :: 0 <= i < j < |params| ==> params[i] != params[j]
  }

  predicate Scoped(names: Stack<Binding>, s: Stmt)
    requires names != []
    decreases s
  {
    match s
    case VarDecl(name, init) => ScopedExpr(names, init) && name !in names[0]
    case Assignment(name, newValue) => ScopedExpr(names, newValue) && Find(names, name) == Some(Value)
    case IfStmt(condition, thenBlock, elseBlock) =>
      ScopedExpr(names, condition) && ScopedAll([map[]] + names, thenBlock) && ScopedAll([map[]] + names, elseBlock)
    case ForLoop(variable, iterable, body) =>
      ScopedExpr(names, iterable) && ScopedAll([map[variable := Value]] + names, body)
    case FunctionDecl(name, params, body) =>
      && name !in names[0] && Distinct(params)
      && ScopedAll([Each(params, Value)] + With(names, Introduced(s)), body)
    case Block(statements) => ScopedAll(names, statements)
    case ReturnStmt(result) => ScopedExpr(names, result)
    case ExecBlock => true
  }

  /** Each statement sees the names that the ones before it introduced. */
  predicate ScopedAll(names: Stack<Binding>, ss: seq<Stmt>)
    requires names != []
    decreases ss
  {
    forall i :: 0 <= i < |ss| ==> Scoped(With(names, IntroducedAll(ss[..i])), ss[i])
  }

  // ----- types -----

  /** The types known after a well-scoped statement. */
  function Retyped(types: Stack<Type>, s: Stmt): (r: Stack<Type>)
    requires types != []
    ensures |r| == |types|
    decreases s
  {
    match s
    case VarDecl(name, init) => Bind(types, name, InferType(types, init))
    case Assignment(name, newValue) =>
      var t := InferType(types, newValue);
      if t == TypeUnknown then types else Rebind(types, name, t)
    case IfStmt(_, thenBlock, elseBlock) =>
      RetypedAll([map[]] + RetypedAll([map[]] + types, thenBlock)[1..], elseBlock)[1..]
    case ForLoop(variable, _, body) => RetypedAll([map[variable := TypeUnknown]] + types, body)[1..]
    case FunctionDecl(name, params, body) =>
      RetypedAll([Each(params, TypeUnknown)] + Bind(types, name, TypeFunction), body)[1..]
    case Block(statements) => RetypedAll(types, statements)
    case ReturnStmt(_) => types
    case ExecBlock => types
  }

  function RetypedAll(types: Stack<Type>, ss: seq<Stmt>): (r: Stack<Type>)
    requires types != []
    ensures |r| == |types|
    decreases ss
  {
    if ss == [] then types else RetypedAll(Retyped(types, ss[0]), ss[1..])
  }

  /** Every loop runs over an array, or over something of unknown type. */
  predicate Iterates(types: Stack<Type>, s: Stmt)
    requires types != []
    decreases s
  {
    match s
    case IfStmt(_, thenBlock, elseBlock) =>
      && IteratesAll([map[]] + types, thenBlock)
      && IteratesAll([map[]] + RetypedAll([map[]] + types, thenBlock)[1..], elseBlock)
    case ForLoop(variable, iterable, body) =>
      (HasType(types, iterable, TypeArray) || HasType(types, iterable, TypeUnknown))
      && IteratesAll([map[variable := TypeUnknown]] + types, body)
    case FunctionDecl(name, params, body) =>
      IteratesAll([Each(params, TypeUnknown)] + Bind(types, name, TypeFunction), body)
    case Block(statements) => IteratesAll(types, statements)
    case VarDecl(_, _) => true
    case Assignment(_, _) => true
    case ReturnStmt(_) => true
    case ExecBlock => true
  }

  predicate IteratesAll(types: Stack<Type>, ss: seq<Stmt>)
    requires types != []
    decreases ss
  {
    ss == [] || (Iterates(types, ss[0]) && IteratesAll(Retyped(types, ss[0]), ss[1..]))
  }

  // ----- the judgement on lists, one statement at a time -----

  lemma WithTwice(names: Stack<Binding>, a: map<string, Binding>, b: map<string, Binding>)
    requires names != []
    ensures With(With(names, a), b) == With(names, a + b)
  {
    assert names[0] + a + b == names[0] + (a + b);
  }

  lemma ScopedStep(names: Stack<Binding>, ss: seq<Stmt>)
    requires names != [] && ss != []
    ensures ScopedAll(names, ss) <==> Scoped(names, ss[0]) && ScopedAll(With(names, Introduced(ss[0])), ss[1..])
  {
    assert With(names, IntroducedAll(ss[..0])) == names by {
      assert names[0] + map[] == names[0];
    }
    forall i | 0 <= i < |ss| - 1
      ensures With(With(names, Introduced(ss[0])), IntroducedAll(ss[1..][..i]))
           == With(names, IntroducedAll(ss[..i + 1]))
    {
      assert ss[..i + 1][1..] == ss[1..][..i];
      WithTwice(names, Introduced(ss[0]), IntroducedAll(ss[1..][..i]));
    }
    var rest := With(names, Introduced(ss[0]));
    assert forall i :: 0 <= i < |ss| - 1 ==> ss[1..][i] == ss[i + 1];
    if ScopedAll(names, ss) {
      forall i | 0 <= i < |ss| - 1 ensures Scoped(With(rest, IntroducedAll(ss[1..][..i])), ss[1..][i]) {
        assert Scoped(With(names, IntroducedAll(ss[..i + 1])), ss[i + 1]);
      }
    }
    if Scoped(names, ss[0]) && ScopedAll(rest, ss[1..]) {
      forall i | 0 <= i < |ss| ensures Scoped(With(names, IntroducedAll(ss[..i])), ss[i]) {
        if i > 0 {
          assert Scoped(With(rest, IntroducedAll(ss[1..][..i - 1])), ss[1..][i - 1]);
        }
      }
    }
  }

  // ----- the errors of an expression -----

  /** Why a call, a name or something inside gives the error. */
  predicate Blames(names: Stack<Binding>, e: Expr, err: ValidationError)
    decreases e
  {
    match e
    case Identifier(name) => err == UndefinedVariable(name) && Find(names, name).None?
    case FunctionCall(callee, args) =>
      || (exists i :: 0 <= i < |args| && Blames(names, args[i], err))
      || (err == UndefinedFunction(callee) && Find(names, callee).None?)
      || (err == NotAFunction(callee) && Find(names, callee) == Some(Value))
      || (err.WrongArgCount? && err.name == callee && err.actual == |args| != err.expected
          && Find(names, callee) == Some(Function(err.expected)))
    case ArrayLiteral(elements) => exists i :: 0 <= i < |elements| && Blames(names, elements[i], err)
    case BinaryExpr(_, left, right) => Blames(names, left, err) || Blames(names, right, err)
    case UnaryExpr(_, operand) => Blames(names, operand, err)
    case _ => false
  }

  /** The errors reported for an expression are those that something in it is to blame for. */
  lemma {:induction false} BlamedExactly(names: Stack<Binding>, e: Expr, err: ValidationError)
    ensures err in CheckExpr(names, e) <==> Blames(names, e, err)
    decreases e
  {
    match e
    case FunctionCall(callee, args) => AllBlamed(names, args, err);
    case ArrayLiteral(elements) => AllBlamed(names, elements, err);
    case BinaryExpr(_, left, right) =>
      BlamedExactly(names, left, err);
      BlamedExactly(names, right, err);
    case UnaryExpr(_, operand) => BlamedExactly(names, operand, err);
    case _ =>
  }

  lemma {:induction false} AllBlamed(names: Stack<Binding>, es: seq<Expr>, err: ValidationError)
    ensures err in CheckExprs(names, es) <==> exists i :: 0 <= i < |es| && Blames(names, es[i], err)
    decreases es
  {
    if es != [] {
      BlamedExactly(names, es[0], err);
      AllBlamed(names, es[1..], err);
      assert forall i :: 0 < i < |es| ==> es[i] == es[1..][i - 1];
    }
  }

  /** The parts of an expression in the order in which they are looked at: arguments and operands from
      left to right, then the expression itself. */
  function Parts(e: Expr): seq<Expr>
    decreases e
  {
    match e
    case FunctionCall(_, args) => AllParts(args) + [e]
    case ArrayLiteral(elements) => AllParts(elements) + [e]
    case BinaryExpr(_, left, right) => Parts(left) + Parts(right) + [e]
    case UnaryExpr(_, operand) => Parts(operand) + [e]
    case _ => [e]
  }

  function AllParts(es: seq<Expr>): seq<Expr>
    decreases es
  {
    if es == [] then [] else Parts(es[0]) + AllParts(es[1..])
  }

  /** The error of a name or a call itself. */
  function OwnErrors(names: Stack<Binding>, e: Expr): seq<ValidationError> {
    match e
    case Identifier(name) => if Find(names, name).Some? then [] else [UndefinedVariable(name)]
    case FunctionCall(callee, args) =>
      var b := Find(names, callee);
      if b == Some(Function(|args|)) then []
      else if b.None? then [UndefinedFunction(callee)]
      else if b == Some(Value) then [NotAFunction(callee)]
      else [WrongArgCount(callee, b.value.arity, |args|)]
    case _ => []
  }

  function ErrorsOf(names: Stack<Binding>, parts: seq<Expr>): seq<ValidationError> {
    if parts == [] then [] else OwnErrors(names, parts[0]) + ErrorsOf(names, parts[1..])
  }

  lemma {:induction false} ErrorsAppend(names: Stack<Binding>, a: seq<Expr>, b: seq<Expr>)
    ensures ErrorsOf(names, a + b) == ErrorsOf(names, a) + ErrorsOf(names, b)
    decreases |a|
  {
    if a == [] {
      assert a + b == b;
    } else {
      assert (a + b)[1..] == a[1..] + b;
      ErrorsAppend(names, a[1..], b);
    }
  }

  lemma ErrorsLast(names: Stack<Binding>, a: seq<Expr>, e: Expr)
    ensures ErrorsOf(names, a + [e]) == ErrorsOf(names, a) + OwnErrors(names, e)
  {
    ErrorsAppend(names, a, [e]);
    assert [e][1..] == [] && OwnErrors(names, e) + [] == OwnErrors(names, e);
  }

  /** The errors of an expression, in the order of its parts. */
  lemma {:induction false} ErrorsInOrder(names: Stack<Binding>, e: Expr)
    ensures CheckExpr(names, e) == ErrorsOf(names, Parts(e))
    decreases e
  {
    match e
    case FunctionCall(callee, args) =>
      AllInOrder(names, args);
      ErrorsLast(names, AllParts(args), e);
    case ArrayLiteral(elements) =>
      AllInOrder(names, elements);
      ErrorsLast(names, AllParts(elements), e);
    case BinaryExpr(_, left, right) =>
      ErrorsInOrder(names, left);
      ErrorsInOrder(names, right);
      ErrorsAppend(names, Parts(left), Parts(right));
      ErrorsLast(names, Parts(left) + Parts(right), e);
    case UnaryExpr(_, operand) =>
      ErrorsInOrder(names, operand);
      ErrorsLast(names, Parts(operand), e);
    case _ => ErrorsLast(names, [], e);
  }

  lemma {:induction false} AllInOrder(names: Stack<Binding>, es: seq<Expr>)
    ensures CheckExprs(names, es) == ErrorsOf(names, AllParts(es))
    decreases es
  {
    if es != [] {
      ErrorsInOrder(names, es[0]);
      AllInOrder(names, es[1..]);
      ErrorsAppend(names, Parts(es[0]), AllParts(es[1..]));
    }
  }

  // ----- errors against the judgement -----

  lemma {:induction false} ExprExact(names: Stack<Binding>, e: Expr)
    ensures CheckExpr(names, e) == [] <==> ScopedExpr(names, e)
    decreases e
  {
    match e
    case FunctionCall(callee, args) => ExprsExact(names, args);
    case ArrayLiteral(elements) => ExprsExact(names, elements);
    case BinaryExpr(_, left, right) =>
      ExprExact(names, left);
      ExprExact(names, right);
    case UnaryExpr(_, operand) => ExprExact(names, operand);
    case _ =>
  }

  lemma {:induction false} ExprsExact(names: Stack<Binding>, es: seq<Expr>)
    ensures CheckExprs(names, es) == [] <==> forall i :: 0 <= i < |es| ==> ScopedExpr(names, es[i])
    decreases es
  {
    if es != [] {
      ExprExact(names, es[0]);
      ExprsExact(names, es[1..]);
      assert forall i :: 0 < i < |es| ==> es[i] == es[1..][i - 1];
    }
  }

  /** A step of the walk: errors are only added, and if none is, these are the scopes it leaves. */
  predicate Steps(w: World, r: World, names: Stack<Binding>, types: Stack<Type>, accepted: bool) {
    && w.errors <= r.errors
    && (r.errors == w.errors <==> accepted)
    && (accepted ==> r == World(names, types, w.errors))
  }

  lemma {:induction false} WalkExact(w: World, s: Stmt)
    requires w.Open()
    ensures Steps(w, Walk(w, s), With(w.names, Introduced(s)), Retyped(w.types, s),
                  Scoped(w.names, s) && Iterates(w.types, s))
    decreases s
  {
    assert w.names[0] + map[] == w.names[0];
    match s
    case VarDecl(name, init) =>
      ExprExact(w.names, init);
      OneMore(w.names, name, Value);
    case Assignment(_, newValue) => ExprExact(w.names, newValue);
    case IfStmt(_, _, _) => IfExact(w, s);
    case ForLoop(_, _, _) => ForExact(w, s);
    case FunctionDecl(_, _, _) => FunctionExact(w, s);
    case Block(statements) => WalkAllExact(w, statements);
    case ReturnStmt(result) => ExprExact(w.names, result);
    case ExecBlock =>
  }

  /** A list run in a scope of its own, opened with `top` in it. */
  lemma {:induction false} InnerExact(w: World, top: map<string, Binding>, topTypes: map<string, Type>, ss: seq<Stmt>)
    requires w.Open()
    ensures var names, types := [top] + w.names, [topTypes] + w.types;
      var r := WalkAll(World(names, types, w.errors), ss).Exit();
      Steps(w, r, w.names, RetypedAll(types, ss)[1..], ScopedAll(names, ss) && IteratesAll(types, ss))
    decreases ss, 1
  {
    var w1 := World([top] + w.names, [topTypes] + w.types, w.errors);
    WalkAllExact(w1, ss);
    assert With(w1.names, IntroducedAll(ss))[1..] == w.names;
  }

  lemma {:induction false} IfExact(w: World, s: Stmt)
    requires w.Open() && s.IfStmt?
    ensures Steps(w, Walk(w, s), w.names, Retyped(w.types, s), Scoped(w.names, s) && Iterates(w.types, s))
    decreases s, 0
  {
    ExprExact(w.names, s.condition);
    var w1 := Checked(w, s.condition);
    InnerExact(w1, map[], map[], s.thenBlock);
    var w2 := WalkAll(w1.Enter(), s.thenBlock).Exit();
    InnerExact(w2, map[], map[], s.elseBlock);
  }

  lemma {:induction false} ForExact(w: World, s: Stmt)
    requires w.Open() && s.ForLoop?
    ensures Steps(w, Walk(w, s), w.names, Retyped(w.types, s), Scoped(w.names, s) && Iterates(w.types, s))
    decreases s, 0
  {
    ExprExact(w.names, s.iterable);
    InfersExactly(w.types, s.iterable, TypeArray);
    InfersExactly(w.types, s.iterable, TypeUnknown);
    var w1 := Checked(w, s.iterable);
    var t := InferType(w.types, s.iterable);
    var w2 := if MayIterate(t) then w1 else w1.Report(CannotIterate(t));
    InnerExact(w2, map[s.variable := Value], map[s.variable := TypeUnknown], s.body);
    assert w2.Enter().Declare(s.variable, Value, TypeUnknown)
        == World([map[s.variable := Value]] + w2.names, [map[s.variable := TypeUnknown]] + w2.types, w2.errors);
  }

  lemma EachStep<V>(top: map<string, V>, params: seq<string>, v: V)
    requires params != []
    ensures top + Each(params, v) == top[params[0] := v] + Each(params[1..], v)
  {
    assert forall p :: p in params <==> p == params[0] || p in params[1..];
  }

  lemma {:induction false} ParamsExact(w: World, params: seq<string>, seen: set<string>)
    requires w.Open()
    ensures var r := DeclareParams(w, params, seen);
      && w.errors <= r.errors && r.names[1..] == w.names[1..] && r.types[1..] == w.types[1..]
      && (r.errors == w.errors <==> Distinct(params) && forall i :: 0 <= i < |params| ==> params[i] !in seen)
      && (r.errors == w.errors ==>
            r.names[0] == w.names[0] + Each(params, Value) && r.types[0] == w.types[0] + Each(params, TypeUnknown))
    decreases |params|
  {
    if params == [] {
      assert w.names[0] + map[] == w.names[0] && w.types[0] + map[] == w.types[0];
    } else {
      var p, rest := params[0], params[1..];
      assert forall i :: 0 <= i < |rest| ==> rest[i] == params[i + 1];
      assert Distinct(params) <==> Distinct(rest) && forall i :: 0 <= i < |rest| ==> rest[i] != p;
      if p in seen {
        ParamsExact(w.Report(DuplicateParameter(p)), rest, seen);
      } else {
        ParamsExact(w.Declare(p, Value, TypeUnknown), rest, seen + {p});
        EachStep(w.names[0], params, Value);
        EachStep(w.types[0], params, TypeUnknown);
      }
    }
  }

  lemma {:induction false} FunctionExact(w: World, s: Stmt)
    requires w.Open() && s.FunctionDecl?
    ensures Steps(w, Walk(w, s), With(w.names, Introduced(s)), Retyped(w.types, s),
                  Scoped(w.names, s) && Iterates(w.types, s))
    decreases s, 0
  {
    if s.name !in w.names[0] {
      var w1 := w.Declare(s.name, Function(|s.params|), TypeFunction);
      OneMore(w.names, s.name, Function(|s.params|));
      ParamsExact(w1.Enter(), s.params, {});
      var w2 := DeclareParams(w1.Enter(), s.params, {});
      assert map[] + Each(s.params, Value) == Each(s.params, Value);
      assert map[] + Each(s.params, TypeUnknown) == Each(s.params, TypeUnknown);
      assert World([w2.names[0]] + w1.names, [w2.types[0]] + w1.types, w2.errors) == w2;
      InnerExact(World(w1.names, w1.types, w2.errors), w2.names[0], w2.types[0], s.body);
    }
  }

  lemma OneMore(names: Stack<Binding>, name: string, b: Binding)
    requires names != []
    ensures With(names, map[name := b]) == Bind(names, name, b)
  {
    assert names[0] + map[name := b] == names[0][name := b];
  }

  lemma {:induction false} WalkAllExact(w: World, ss: seq<Stmt>)
    requires w.Open()
    ensures Steps(w, WalkAll(w, ss), With(w.names, IntroducedAll(ss)), RetypedAll(w.types, ss),
                  ScopedAll(w.names, ss) && IteratesAll(w.types, ss))
    decreases ss, 0
  {
    if ss == [] {
      assert w.names[0] + map[] == w.names[0];
    } else {
      ScopedStep(w.names, ss);
      WalkExact(w, ss[0]);
      WalkAllExact(Walk(w, ss[0]), ss[1..]);
      WithTwice(w.names, Introduced(ss[0]), IntroducedAll(ss[1..]));
    }
  }

  /** The checker reports nothing exactly on the programs that satisfy the judgement. */
  lemma AcceptedExactly(program: seq<Stmt>)
    ensures WalkAll(Builtins(), program).errors == []
       <==> ScopedAll([map["print" := Function(1), "len" := Function(1)]], program)
            && IteratesAll([map["print" := TypeUnknown, "len" := TypeUnknown]], program)
  {
    WalkAllExact(Builtins(), program);
  }

  // ----- frames, for accepted and rejected programs alike -----

  /** The innermost scope may gain names; every enclosing scope keeps its own. */
  predicate Framed(before: Stack<Binding>, after: Stack<Binding>) {
    && before != [] && after != [] && after[1..] == before[1..]
    && forall x :: x in before[0] ==> x in after[0] && after[0][x] == before[0][x]
  }

  lemma {:induction false} WalkFrame(w: World, s: Stmt)
    requires w.Open()
    ensures Framed(w.names, Walk(w, s).names)
    decreases s
  {
    match s
    case IfStmt(condition, thenBlock, elseBlock) =>
      var w1 := Checked(w, condition);
      WalkAllFrame(w1.Enter(), thenBlock);
      WalkAllFrame(WalkAll(w1.Enter(), thenBlock).Exit().Enter(), elseBlock);
    case ForLoop(variable, iterable, body) =>
      var w1 := Checked(w, iterable);
      var t := InferType(w.types, iterable);
      var w2 := if MayIterate(t) then w1 else w1.Report(CannotIterate(t));
      WalkAllFrame(w2.Enter().Declare(variable, Value, TypeUnknown), body);
    case FunctionDecl(name, params, body) =>
      if name !in w.names[0] {
        var w1 := w.Declare(name, Function(|params|), TypeFunction);
        ParamsExact(w1.Enter(), params, {});
        WalkAllFrame(DeclareParams(w1.Enter(), params, {}), body);
      }
    case Block(statements) => WalkAllFrame(w, statements);
    case _ =>
  }

  lemma {:induction false} WalkAllFrame(w: World, ss: seq<Stmt>)
    requires w.Open()
    ensures Framed(w.names, WalkAll(w, ss).names)
    decreases ss
  {
    if ss != [] {
      WalkFrame(w, ss[0]);
      WalkAllFrame(Walk(w, ss[0]), ss[1..]);
    }
  }

  // ----- the errors of a statement itself -----

  /** Every parameter that repeats an earlier one, from place `k` on. */
  function Repeats(params: seq<string>, k: nat): seq<ValidationError>
    requires k <= |params|
    decreases |params| - k
  {
    if k == |params| then []
    else (if params[k] in params[..k] then [DuplicateParameter(params[k])] else []) + Repeats(params, k + 1)
  }

  /** What is wrong with a statement before its blocks are looked at. */
  function FirstErrors(names: Stack<Binding>, types: Stack<Type>, s: Stmt): seq<ValidationError>
    requires names != []
  {
    match s
    case VarDecl(name, init) =>
      ErrorsOf(names, Parts(init)) + (if name in names[0] then [DuplicateDeclaration(name)] else [])
    case Assignment(name, newValue) =>
      ErrorsOf(names, Parts(newValue)) + (
        if Find(names, name).None? then [UndefinedVariable(name)]
        else if Find(names, name) == Some(Value) then [] else [AssignToFunction(name)])
    case IfStmt(condition, _, _) => ErrorsOf(names, Parts(condition))
    case ForLoop(_, iterable, _) =>
      ErrorsOf(names, Parts(iterable)) + (
        if HasType(types, iterable, TypeArray) || HasType(types, iterable, TypeUnknown) then []
        else [CannotIterate(InferType(types, iterable))])
    case FunctionDecl(name, params, _) =>
      if name in names[0] then [DuplicateDeclaration(name)] else Repeats(params, 0)
    case ReturnStmt(result) => ErrorsOf(names, Parts(result))
    case Block(_) => []
    case ExecBlock => []
  }

  predicate HasBlock(names: Stack<Binding>, s: Stmt)
    requires names != []
  {
    s.IfStmt? || s.ForLoop? || s.Block? || (s.FunctionDecl? && s.name !in names[0])
  }

  lemma {:induction false} RepeatsReported(w: World, params: seq<string>, k: nat, seen: set<string>)
    requires w.Open() && k <= |params| && forall p :: p in seen <==> p in params[..k]
    ensures DeclareParams(w, params[k..], seen).errors == w.errors + Repeats(params, k)
    decreases |params| - k
  {
    if k < |params| {
      var p := params[k];
      assert params[k..][0] == p && params[k..][1..] == params[k + 1..];
      assert params[..k + 1] == params[..k] + [p];
      if p in seen {
        var w1 := w.Report(DuplicateParameter(p));
        RepeatsReported(w1, params, k + 1, seen);
        assert w1.errors + Repeats(params, k + 1) == w.errors + ([DuplicateParameter(p)] + Repeats(params, k + 1));
      } else {
        RepeatsReported(w.Declare(p, Value, TypeUnknown), params, k + 1, seen + {p});
        assert [] + Repeats(params, k + 1) == Repeats(params, k + 1);
      }
    }
  }

  lemma ForErrors(w: World, s: Stmt)
    requires w.Open() && s.ForLoop?
    ensures w.errors + FirstErrors(w.names, w.types, s) <= Walk(w, s).errors
  {
    ErrorsInOrder(w.names, s.iterable);
    InfersExactly(w.types, s.iterable, TypeArray);
    InfersExactly(w.types, s.iterable, TypeUnknown);
    var w1 := Checked(w, s.iterable);
    var t := InferType(w.types, s.iterable);
    var w2 := if MayIterate(t) then w1 else w1.Report(CannotIterate(t));
    assert w2.errors == w.errors + FirstErrors(w.names, w.types, s);
    WalkAllExact(w2.Enter().Declare(s.variable, Value, TypeUnknown), s.body);
  }

  lemma FunctionErrors(w: World, s: Stmt)
    requires w.Open() && s.FunctionDecl? && s.name !in w.names[0]
    ensures w.errors + FirstErrors(w.names, w.types, s) <= Walk(w, s).errors
  {
    var w1 := w.Declare(s.name, Function(|s.params|), TypeFunction);
    assert s.params[0..] == s.params;
    RepeatsReported(w1.Enter(), s.params, 0, {});
    WalkAllExact(DeclareParams(w1.Enter(), s.params, {}), s.body);
  }

  lemma IfErrors(w: World, s: Stmt)
    requires w.Open() && s.IfStmt?
    ensures w.errors + FirstErrors(w.names, w.types, s) <= Walk(w, s).errors
  {
    ErrorsInOrder(w.names, s.condition);
    var w1 := Checked(w, s.condition);
    WalkAllExact(w1.Enter(), s.thenBlock);
    WalkAllExact(WalkAll(w1.Enter(), s.thenBlock).Exit().Enter(), s.elseBlock);
  }

  /** A statement's own errors come first, in order; without a block there are no others. */
  lemma OwnErrorsFirst(w: World, s: Stmt)
    requires w.Open()
    ensures w.errors + FirstErrors(w.names, w.types, s) <= Walk(w, s).errors
    ensures !HasBlock(w.names, s) ==> Walk(w, s).errors == w.errors + FirstErrors(w.names, w.types, s)
  {
    match s
    case VarDecl(_, init) => ErrorsInOrder(w.names, init);
    case Assignment(_, newValue) => ErrorsInOrder(w.names, newValue);
    case IfStmt(_, _, _) => IfErrors(w, s);
    case ForLoop(_, _, _) => ForErrors(w, s);
    case FunctionDecl(name, _, _) =>
      if name !in w.names[0] {
        FunctionErrors(w, s);
      }
    case Block(statements) => WalkAllExact(w, statements);
    case ReturnStmt(result) => ErrorsInOrder(w.names, result);
    case ExecBlock =>
  }
}
