/** The scope chain (internal/validator/symbol_table.go): scopes linked by parent pointers, whose
    symbol maps and symbols are changed in place. Its meaning is a pair of stacks of maps. */
module SymbolTable {
  import opened Results
  import opened ScopeSyntax

  datatype SymbolKind = SymbolVariable | SymbolFunction | SymbolParameter

  /** What the checker distinguishes of a kind and a parameter count. */
  function Bound(kind: SymbolKind, paramCount: nat): Binding {
    if kind == SymbolFunction then Function(paramCount) else Value
  }

  class Symbol {
    const name: string
    const kind: SymbolKind
    var typ: Type
    const paramCount: nat
    ghost const home: Scope

    constructor (name: string, kind: SymbolKind, typ: Type, paramCount: nat, ghost home: Scope)
      ensures this.name == name && this.kind == kind && this.typ == typ
      ensures this.paramCount == paramCount && this.home == home
    {
      this.name, this.kind, this.typ, this.paramCount, this.home := name, kind, typ, paramCount, home;
    }

    /** Every scope in order stays so: symbols know their scope, and no two scopes share one. */
    method SetType(typ: Type)
      requires home.Valid() && name in home.symbols && home.symbols[name] == this
      modifies this`typ, home`types
      ensures home.types == old(home.types)[name := typ]
      ensures forall s: Scope :: old(allocated(s)) && old(s.Valid()) ==> s.Valid()
    {
      this.typ := typ;
      home.types := home.types[name := typ];
      forall s: Scope | old(allocated(s)) && old(s.Valid()) ensures s.Valid() {
        forall x | x in s.symbols ensures s.Describes(x, s.symbols[x]) {
          assert old(s.Describes(x, s.symbols[x]));
        }
      }
    }
  }

  /** `names` and `types` say what the symbols say. */
  class Scope {
    var symbols: map<string, Symbol>
    const parent: Scope?
    ghost var names: map<string, Binding>
    ghost var types: map<string, Type>

    constructor (parent: Scope?)
      ensures symbols == map[] && names == map[] && types == map[] && this.parent == parent
    {
      symbols, names, types, this.parent := map[], map[], map[], parent;
    }

    ghost predicate Valid()
      reads this, symbols.Values
    {
      && names.Keys == symbols.Keys && types.Keys == symbols.Keys
      && forall x :: x in symbols ==> Describes(x, symbols[x])
    }

    ghost predicate Within(repr: set<object>)
      reads `symbols
    {
      symbols.Values <= repr
    }

    ghost predicate Describes(name: string, sym: Symbol)
      requires name in names && name in types
      reads this, sym
    {
      sym.home == this && sym.name == name && names[name] == Bound(sym.kind, sym.paramCount) && types[name] == sym.typ
    }

    method Insert(sym: Symbol)
      requires Valid() && sym.home == this && sym.name !in symbols
      modifies this
      ensures Valid() && symbols == old(symbols)[sym.name := sym]
      ensures names == old(names)[sym.name := Bound(sym.kind, sym.paramCount)]
      ensures types == old(types)[sym.name := sym.typ]
      ensures forall s: Scope :: s != this && old(allocated(s)) && old(s.Valid()) ==> s.Valid()
    {
      assert forall x :: x in symbols ==> Describes(x, symbols[x]) && symbols[x] != sym;
      symbols := symbols[sym.name := sym];
      names := names[sym.name := Bound(sym.kind, sym.paramCount)];
      types := types[sym.name := sym.typ];
    }
  }

  /** The parent pointers from `scope` run through distinct scopes to the outermost one. */
  ghost predicate Linked(scope: Scope?, chain: seq<Scope>)
    decreases |chain|
  {
    if chain == [] then scope == null
    else scope == chain[0] && scope !in chain[1..] && Linked(scope.parent, chain[1..])
  }

  ghost function NamesOf(chain: seq<Scope>): (names: Stack<Binding>)
    reads chain`names
    ensures |names| == |chain|
  {
    if chain == [] then [] else [chain[0].names] + NamesOf(chain[1..])
  }

  ghost function TypesOf(chain: seq<Scope>): (types: Stack<Type>)
    reads chain`types
    ensures |types| == |chain|
  {
    if chain == [] then [] else [chain[0].types] + TypesOf(chain[1..])
  }

  lemma {:induction false} TypesAt(chain: seq<Scope>)
    ensures forall i :: 0 <= i < |chain| ==> TypesOf(chain)[i] == chain[i].types
    decreases |chain|
  {
    if chain != [] {
      TypesAt(chain[1..]);
    }
  }

  lemma {:induction false} LinkedDistinct(scope: Scope?, chain: seq<Scope>)
    requires Linked(scope, chain)
    ensures forall i, j :: 0 <= i < j < |chain| ==> chain[i] != chain[j]
    decreases |chain|
  {
    if chain != [] {
      LinkedDistinct(scope.parent, chain[1..]);
    }
  }

  lemma ReboundTypes(scope: Scope?, chain: seq<Scope>, k: nat, name: string, typ: Type) returns (after: Stack<Type>)
    requires Linked(scope, chain)
    requires k < |chain| && name in chain[k].types && forall j :: 0 <= j < k ==> name !in chain[j].types
    ensures after == Rebind(TypesOf(chain), name, typ) && |after| == |chain|
    ensures after[k] == chain[k].types[name := typ]
    ensures forall i :: 0 <= i < |chain| && i != k ==> chain[i] != chain[k] && after[i] == chain[i].types
  {
    LinkedDistinct(scope, chain);
    TypesAt(chain);
    RebindAt(TypesOf(chain), k, name, typ);
    after := TypesOf(chain)[k := chain[k].types[name := typ]];
  }

  lemma {:induction false} TypesAre(chain: seq<Scope>, types: Stack<Type>)
    requires |types| == |chain| && forall i :: 0 <= i < |chain| ==> types[i] == chain[i].types
    ensures TypesOf(chain) == types
    decreases |chain|
  {
    if chain != [] {
      TypesAre(chain[1..], types[1..]);
    }
  }

  class Table {
    var current: Scope
    const global: Scope
    ghost var chain: seq<Scope>
    ghost var Repr: set<object>

    /** No symbol is shared between scopes or names. */
    ghost predicate Valid()
      reads this, Repr
    {
      && this in Repr && chain != [] && global == chain[|chain| - 1] && Linked(current, chain)
      && forall s :: s in chain ==> s in Repr && s.Within(Repr) && s.Valid()
    }

    ghost function Names(): Stack<Binding>
      reads `chain, chain`names
    {
      NamesOf(chain)
    }

    ghost function Types(): Stack<Type>
      reads `chain, chain`types
    {
      TypesOf(chain)
    }

    /** A global scope with the builtins, whose type is the zero value. */
    constructor ()
      ensures Valid() && fresh(Repr)
      ensures Names() == [map["print" := Function(1), "len" := Function(1)]]
      ensures Types() == [map["print" := TypeUnknown, "len" := TypeUnknown]]
    {
      var top := new Scope(null);
      var p := new Symbol("print", SymbolFunction, TypeUnknown, 1, top);
      var l := new Symbol("len", SymbolFunction, TypeUnknown, 1, top);
      current, global, chain := top, top, [top];
      Repr := {this, top, p, l};
      new;
      top.symbols := map["print" := p, "len" := l];
      top.names := map["print" := Function(1), "len" := Function(1)];
      top.types := map["print" := TypeUnknown, "len" := TypeUnknown];
      assert chain[1..] == [];
    }

    method EnterScope()
      requires Valid()
      modifies this
      ensures Valid() && fresh(Repr - old(Repr))
      ensures Names() == [map[]] + old(Names()) && Types() == [map[]] + old(Types())
      ensures chain == [current] + old(chain) && fresh(current)
    {
      current := new Scope(current);
      chain := [current] + chain;
      Repr := Repr + {current};
      assert chain[1..] == old(chain);
    }

    method ExitScope()
      requires Valid()
      modifies this
      ensures Valid() && Repr == old(Repr)
      ensures chain == if |old(chain)| > 1 then old(chain)[1..] else old(chain)
      ensures Names() == if |old(chain)| > 1 then old(Names())[1..] else old(Names())
      ensures Types() == if |old(chain)| > 1 then old(Types())[1..] else old(Types())
    {
      assert Linked(current.parent, chain[1..]);
      if current.parent != null {
        current := current.parent;
        chain := chain[1..];
      }
    }

    /** A new symbol of the innermost scope. */
    method Put(sym: Symbol)
      requires Valid() && sym.home == current && sym.name !in current.symbols && sym !in Repr
      modifies this`Repr, current
      ensures Valid() && Repr == old(Repr) + {sym}
      ensures current.names == old(current.names)[sym.name := Bound(sym.kind, sym.paramCount)]
      ensures current.types == old(current.types)[sym.name := sym.typ]
    {
      current.Insert(sym);
      Repr := Repr + {sym};
    }

    /** Refused exactly when the innermost scope already has the name. */
    method DeclareWithType(name: string, kind: SymbolKind, typ: Type, paramCount: nat) returns (ok: bool)
      requires Valid()
      modifies this, current
      ensures Valid() && fresh(Repr - old(Repr)) && chain == old(chain)
      ensures ok == (name !in old(Names())[0])
      ensures ok ==> Names() == Bind(old(Names()), name, Bound(kind, paramCount))
      ensures ok ==> Types() == Bind(old(Types()), name, typ)
      ensures !ok ==> Names() == old(Names()) && Types() == old(Types())
    {
      if name in current.symbols {
        return false;
      }
      var sym := new Symbol(name, kind, typ, paramCount, current);
      Put(sym);
      ok := true;
    }

    /** The symbol of the innermost scope that has the name. */
    method Lookup(name: string) returns (sym: Symbol?)
      requires Valid()
      ensures if sym == null then Find(Names(), name) == None && Find(Types(), name) == None
        else
          && sym in Repr && sym.home in chain && name in sym.home.symbols && sym.home.symbols[name] == sym
          && Find(Names(), name) == Some(Bound(sym.kind, sym.paramCount)) && Find(Types(), name) == Some(sym.typ)
      ensures sym != null ==>
        exists k :: 0 <= k < |chain| && chain[k] == sym.home && forall j :: 0 <= j < k ==> name !in chain[j].types
    {
      var scope: Scope? := current;
      ghost var i := 0;
      while scope != null
        invariant 0 <= i <= |chain| && Linked(scope, chain[i..])
        invariant Find(NamesOf(chain), name) == Find(NamesOf(chain[i..]), name)
        invariant Find(TypesOf(chain), name) == Find(TypesOf(chain[i..]), name)
        invariant forall j :: 0 <= j < i ==> name !in chain[j].types
        decreases |chain| - i
      {
        assert chain[i..][1..] == chain[i + 1..];
        if name in scope.symbols {
          assert scope == chain[i] && scope.Valid() && scope.Describes(name, scope.symbols[name]);
          return scope.symbols[name];
        }
        scope := scope.parent;
        i := i + 1;
      }
      sym := null;
    }

    method LookupLocal(name: string) returns (found: bool)
      requires Valid()
      ensures found == (name in Names()[0])
    {
      assert current == chain[0] && current.Valid();
      found := name in current.symbols;
    }

    method UpdateType(name: string, typ: Type)
      requires Valid()
      modifies Repr
      ensures Valid() && Repr == old(Repr) && chain == old(chain)
      ensures Names() == old(Names()) && Types() == Rebind(old(Types()), name, typ)
    {
      var sym := Lookup(name);
      if sym == null {
        RebindAbsent(Types(), name, typ);
        return;
      }
      ghost var k :| 0 <= k < |chain| && chain[k] == sym.home && forall j :: 0 <= j < k ==> name !in chain[j].types;
      ghost var after := ReboundTypes(current, chain, k, name, typ);
      Retype(sym, typ);
      TypesAre(chain, after);
    }

    method Retype(sym: Symbol, typ: Type)
      requires Valid() && sym.home in chain && sym.name in sym.home.symbols && sym.home.symbols[sym.name] == sym
      modifies sym`typ, sym.home`types
      ensures Valid() && sym.home.types == old(sym.home.types)[sym.name := typ]
    {
      sym.SetType(typ);
    }
  }

  // ----- the maps a name is looked up in -----

  lemma {:induction false} RebindAbsent<V>(stack: Stack<V>, name: string, v: V)
    requires Find(stack, name) == None
    ensures Rebind(stack, name, v) == stack
    decreases |stack|
  {
    if stack != [] {
      RebindAbsent(stack[1..], name, v);
    }
  }

  /** Only the innermost map that has the name changes. */
  lemma {:induction false} RebindAt<V>(stack: Stack<V>, k: nat, name: string, v: V)
    requires k < |stack| && name in stack[k] && forall j :: 0 <= j < k ==> name !in stack[j]
    ensures Rebind(stack, name, v) == stack[k := stack[k][name := v]]
    decreases k
  {
    if k > 0 {
      assert stack[1..][k - 1] == stack[k];
      RebindAt(stack[1..], k - 1, name, v);
    }
  }
}
