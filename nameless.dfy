/** Conversion of the named syntax to de Bruijn indices (src/nameless.rs).
    A name resolves to its LAST (innermost) occurrence in the scope, and only
    a name that no binder carries falls back to the builtin operators. */
module Nameless {
  import opened Wrappers
  import Ast
  import opened Scopes

  datatype NamelessExpr =
    | App(l: NamelessExpr, r: NamelessExpr)
    | Lam(body: NamelessExpr)
    | Lit(n: Ast.u32)
    | Nam(name: string)
    | Var(index: nat)

  /** The globally named functions. */
  const Builtins: set<string> := {"+", "-", "*", "/", "mod", "print"}

  /** Every index points at one of the `depth` enclosing binders (counting
      those outside the term and the lambdas inside it). */
  predicate ScopedBelow(t: NamelessExpr, depth: nat)
  {
    match t
    case App(l, r) => ScopedBelow(l, depth) && ScopedBelow(r, depth)
    case Lam(b) => ScopedBelow(b, depth + 1)
    case Lit(_) => true
    case Nam(_) => true
    case Var(i) => i < depth
  }

  /** Every global name in the term is a builtin. */
  predicate NamesBuiltins(t: NamelessExpr)
  {
    match t
    case App(l, r) => NamesBuiltins(l) && NamesBuiltins(r)
    case Lam(b) => NamesBuiltins(b)
    case Lit(_) => true
    case Nam(n) => n in Builtins
    case Var(_) => true
  }

  /** The term refers to no global name. */
  predicate NoGlobals(t: NamelessExpr)
  {
    match t
    case App(l, r) => NoGlobals(l) && NoGlobals(r)
    case Lam(b) => NoGlobals(b)
    case Lit(_) => true
    case Nam(_) => false
    case Var(_) => true
  }

  /** `remove_names` as a function of the scope (innermost binder last). */
  function RemoveNames(scope: seq<string>, e: Ast.Expr): (r: Result<NamelessExpr, string>)
    ensures r.Ok? ==> ScopedBelow(r.value, |scope|) && NamesBuiltins(r.value)
    decreases e
  {
    match e
    case App(l, a) =>
      var l' :- RemoveNames(scope, l);
      var a' :- RemoveNames(scope, a);
      Ok(App(l', a'))
    case Lam(s, _, b) =>
      var b' :- RemoveNames(scope + [s], b);
      Ok(Lam(b'))
    case Lit(n) => Ok(Lit(n))
    case Var(x) => ResolveName(scope, x)
  }

  /** The variable arm of `remove_names`: the innermost binder, else a
      builtin, else an error. */
  function ResolveName(scope: seq<string>, x: string): (r: Result<NamelessExpr, string>)
    ensures r.Ok? ==> ScopedBelow(r.value, |scope|) && NamesBuiltins(r.value)
  {
    match LastIndexOf(scope, x)
    case Some(p) => Ok(Var(|scope| - p - 1))
    case None => if x in Builtins then Ok(Nam(x)) else Err("Not found: " + x)
  }

  /** `remove_names` with its `&mut Vec` scope: the binder is pushed before
      the body and popped after it, so on success the scope is as it was; on
      an error the binders pushed on the way down stay on it. */
  method RemoveNamesInPlace(scope: Stack<string>, e: Ast.Expr) returns (r: Result<NamelessExpr, string>)
    modifies scope
    ensures r == RemoveNames(old(scope.items), e)
    ensures r.Ok? ==> scope.items == old(scope.items)
    ensures old(scope.items) <= scope.items
    decreases e
  {
    match e
    case App(l, a) =>
      var l' := RemoveNamesInPlace(scope, l);
      if l'.Err? {
        return Err(l'.error);
      }
      var a' := RemoveNamesInPlace(scope, a);
      if a'.Err? {
        return Err(a'.error);
      }
      r := Ok(App(l'.value, a'.value));
    case Lam(s, _, b) =>
      ghost var before := scope.items;
      scope.Push(s);
      var b' := RemoveNamesInPlace(scope, b);
      if b'.Err? {
        assert before <= before + [s] <= scope.items;
        return Err(b'.error);
      }
      var _ := scope.Pop();
      assert scope.items == before;
      r := Ok(Lam(b'.value));
    case Lit(n) =>
      r := Ok(Lit(n));
    case Var(x) =>
      var p := LastIndexOf(scope.items, x);
      if p.Some? {
        r := Ok(Var(|scope.items| - p.value - 1));
      } else if x in Builtins {
        r := Ok(Nam(x));
      } else {
        r := Err("Not found: " + x);
      }
  }

  // ---------------------------------------------------------------------
  // How a name is resolved

  /** A name becomes index `i` exactly when the binder `i` places from the
      top of the scope carries it and no binder nearer the top does. */
  lemma VarResolvesInnermost(scope: seq<string>, x: string, i: nat)
    ensures ResolveName(scope, x) == Ok(Var(i)) <==>
      && i < |scope| && scope[|scope| - 1 - i] == x
      && forall j :: |scope| - 1 - i < j < |scope| ==> scope[j] != x
  {
    if i < |scope| {
      LastIndexIs(scope, x, |scope| - 1 - i);
    }
  }

  /** Only a name no binder carries can be a builtin: a binder shadows a
      builtin of the same name, and any other unbound name is an error. */
  lemma VarFallsBackToBuiltins(scope: seq<string>, x: string)
    ensures ResolveName(scope, x) == Ok(Nam(x)) <==> x !in scope && x in Builtins
    ensures ResolveName(scope, x).Err? <==> x !in scope && x !in Builtins
    ensures ResolveName(scope, x).Err? ==> ResolveName(scope, x).error == "Not found: " + x
  {
  }

  /** Conversion succeeds exactly when every free name is bound by the
      scope or is a builtin, and a failure names one that is neither. */
  lemma {:induction false} RemoveNamesSucceedsIff(scope: seq<string>, e: Ast.Expr)
    ensures RemoveNames(scope, e).Ok? <==>
      forall x :: x in Ast.FreeVars(e) ==> x in scope || x in Builtins
    ensures RemoveNames(scope, e).Err? ==>
      exists x :: x in Ast.FreeVars(e) && x !in scope && x !in Builtins
        && RemoveNames(scope, e).error == "Not found: " + x
    decreases e
  {
    match e
    case App(l, a) =>
      RemoveNamesSucceedsIff(scope, l);
      RemoveNamesSucceedsIff(scope, a);
    case Lam(s, _, b) =>
      RemoveNamesSucceedsIff(scope + [s], b);
      assert forall x :: x in scope + [s] <==> x in scope || x == s;
    case Lit(_) =>
    case Var(x) =>
      assert x in Ast.FreeVars(e);
  }
}
