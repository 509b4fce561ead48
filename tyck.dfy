/** Syntax-directed type checking of the named syntax over a scope of
    `(name, Type)` entries (src/tyck.rs). The scope starts empty, so the
    builtin operators are unbound here, and a variable takes the type of the
    FIRST (outermost) entry with its name, as `iter().find` gives it. */
module Tyck {
  import opened Wrappers
  import opened Ast
  import opened Scopes

  /** The scope, outermost binder first. */
  type Scope = seq<(string, Type)>

  /** The binder names of a scope, in order. */
  function Keys(scope: Scope): (ks: seq<string>)
    ensures |ks| == |scope|
    ensures forall i :: 0 <= i < |scope| ==> ks[i] == scope[i].0
  {
    seq(|scope|, i requires 0 <= i < |scope| => scope[i].0)
  }

  /** The type of the first (outermost) entry named `s`. */
  function Lookup(scope: Scope, s: string): Option<Type>
  {
    match FirstIndexOf(Keys(scope), s)
    case Some(i) => Some(scope[i].1)
    case None => None
  }

  /** The three ways checking fails, with the message the source formats. */
  datatype TyckError =
    | Mismatch(fn: Expr, expected: Type, arg: Expr, got: Type)
    | NotAFunction(fn: Expr)
    | NotFound(name: string)
  {
    function Message(): string
    {
      match this
      case Mismatch(l, d, r, rt) =>
        ShowExpr(l) + " expects an " + ShowType(d) + ", but got " + ShowExpr(r)
        + " (of type " + ShowType(rt) + ")"
      case NotAFunction(l) => "Not a function: " + ShowExpr(l)
      case NotFound(s) => "Not found: " + s
    }
  }

  /** The checker as a function of the scope: the function is checked
      first, then the argument, then the arrow. */
  function TypeOf(scope: Scope, e: Expr): Result<Type, TyckError>
    decreases e
  {
    match e
    case App(l, r) =>
      var lt :- TypeOf(scope, l);
      var rt :- TypeOf(scope, r);
      (match lt
       case Arr(d, c) => if d == rt then Ok(c) else Err(Mismatch(l, d, r, rt))
       case Int => Err(NotAFunction(l)))
    case Lam(s, t, b) =>
      var bt :- TypeOf(scope + [(s, t)], b);
      Ok(Arr(t, bt))
    case Lit(_) => Ok(Int)
    case Var(s) =>
      match Lookup(scope, s)
      case Some(t) => Ok(t)
      case None => Err(NotFound(s))
  }

  // ---------------------------------------------------------------------
  // The checker over a scope updated in place

  /** `tyck` with its `&mut Vec` scope: pushes a binder, checks the body and
      pops it again. On success the scope is as it was; on an error the
      binders pushed on the way down are left on it. */
  method Check(scope: Stack<(string, Type)>, e: Expr) returns (r: Result<Type, TyckError>)
    modifies scope
    ensures r == TypeOf(old(scope.items), e)
    ensures r.Ok? ==> scope.items == old(scope.items)
    ensures old(scope.items) <= scope.items
    decreases e
  {
    match e
    case App(l, a) =>
      var lt := Check(scope, l);
      if lt.Err? {
        return Err(lt.error);
      }
      var at := Check(scope, a);
      if at.Err? {
        return Err(at.error);
      }
      match lt.value {
        case Arr(d, c) =>
          if d == at.value {
            r := Ok(c);
          } else {
            r := Err(Mismatch(l, d, a, at.value));
          }
        case Int =>
          r := Err(NotAFunction(l));
      }
    case Lam(s, t, b) =>
      ghost var before := scope.items;
      scope.Push((s, t));
      var bt := Check(scope, b);
      if bt.Err? {
        assert before <= before + [(s, t)] <= scope.items;
        return Err(bt.error);
      }
      var _ := scope.Pop();
      assert scope.items == before;
      r := Ok(Arr(t, bt.value));
    case Lit(_) =>
      r := Ok(Int);
    case Var(s) =>
      match FirstIndexOf(Keys(scope.items), s)
      case Some(i) =>
        r := Ok(scope.items[i].1);
      case None =>
        r := Err(NotFound(s));
  }

  /** `Expr::tyck`: checking starts from an empty scope. */
  method TypeCheck(e: Expr) returns (r: Result<Type, TyckError>)
    ensures r == TypeOf([], e)
  {
    var scope := new Stack<(string, Type)>();
    r := Check(scope, e);
  }

  // ---------------------------------------------------------------------
  // The typing relation the checker decides

  /** Declarative typing: an application needs SOME domain that the function
      and the argument agree on, and a variable has the type of the first
      entry carrying its name. */
  ghost predicate HasType(scope: Scope, e: Expr, t: Type)
    decreases e
  {
    match e
    case App(l, r) => exists d :: HasType(scope, l, Arr(d, t)) && HasType(scope, r, d)
    case Lam(s, d, b) => t.Arr? && t.dom == d && HasType(scope + [(s, d)], b, t.cod)
    case Lit(_) => t == Int
    case Var(s) =>
      exists i :: 0 <= i < |scope| && scope[i] == (s, t) && forall j :: 0 <= j < i ==> scope[j].0 != s
  }

  /** What the checker returns is a type of the expression. */
  lemma {:induction false} TypeOfSound(scope: Scope, e: Expr)
    requires TypeOf(scope, e).Ok?
    ensures HasType(scope, e, TypeOf(scope, e).value)
    decreases e
  {
    match e
    case App(l, r) =>
      TypeOfSound(scope, l);
      TypeOfSound(scope, r);
      var d := TypeOf(scope, r).value;
      assert HasType(scope, l, Arr(d, TypeOf(scope, e).value));
    case Lam(s, t, b) =>
      TypeOfSound(scope + [(s, t)], b);
    case Lit(_) =>
    case Var(s) =>
      var i := FirstIndexOf(Keys(scope), s).value;
      assert scope[i] == (s, TypeOf(scope, e).value);
  }

  /** Every type of the expression is what the checker returns: types are
      unique and the checker misses none. */
  lemma {:induction false} TypeOfComplete(scope: Scope, e: Expr, t: Type)
    requires HasType(scope, e, t)
    ensures TypeOf(scope, e) == Ok(t)
    decreases e
  {
    match e
    case App(l, r) =>
      var d :| HasType(scope, l, Arr(d, t)) && HasType(scope, r, d);
      TypeOfComplete(scope, l, Arr(d, t));
      TypeOfComplete(scope, r, d);
    case Lam(s, d, b) =>
      TypeOfComplete(scope + [(s, d)], b, t.cod);
    case Lit(_) =>
    case Var(s) =>
      var i :| 0 <= i < |scope| && scope[i] == (s, t) && forall j :: 0 <= j < i ==> scope[j].0 != s;
      var k := FirstIndexOf(Keys(scope), s);
      assert Keys(scope)[i] == s;
      assert k.Some? && k.value == i;
  }

  /** The checker fails exactly on the expressions that have no type. */
  lemma TypeOfFailsIffUntypable(scope: Scope, e: Expr)
    ensures TypeOf(scope, e).Err? <==> forall t :: !HasType(scope, e, t)
  {
    if TypeOf(scope, e).Ok? {
      TypeOfSound(scope, e);
      assert HasType(scope, e, TypeOf(scope, e).value);
    } else {
      forall t | HasType(scope, e, t) ensures false {
        TypeOfComplete(scope, e, t);
      }
    }
  }

  /** The first (outermost) binding of a name decides its type, whatever
      binders of the same name follow it. */
  lemma OutermostBindingWins(outer: Scope, s: string, t: Type, inner: Scope)
    requires s !in Keys(outer)
    ensures TypeOf(outer + [(s, t)] + inner, Var(s)) == Ok(t)
  {
    var scope := outer + [(s, t)] + inner;
    var ks := Keys(scope);
    assert ks[|outer|] == s;
    assert forall j :: 0 <= j < |outer| ==> ks[j] == Keys(outer)[j];
    var k := FirstIndexOf(ks, s);
    assert k.value == |outer|;
  }

  /** The two error cases of an application, with their messages. */
  lemma AppErrors(scope: Scope, l: Expr, r: Expr)
    requires TypeOf(scope, l).Ok? && TypeOf(scope, r).Ok?
    ensures TypeOf(scope, l).value.Int? ==>
      && TypeOf(scope, App(l, r)) == Err(NotAFunction(l))
      && TypeOf(scope, App(l, r)).error.Message() == "Not a function: " + ShowExpr(l)
    ensures TypeOf(scope, l).value.Arr? && TypeOf(scope, l).value.dom != TypeOf(scope, r).value ==>
      TypeOf(scope, App(l, r))
      == Err(Mismatch(l, TypeOf(scope, l).value.dom, r, TypeOf(scope, r).value))
  {
  }

  /** Errors propagate before the arrow is inspected: the function's first,
      then the argument's. */
  lemma ErrorsPropagateLeftFirst(scope: Scope, l: Expr, r: Expr)
    ensures TypeOf(scope, l).Err? ==> TypeOf(scope, App(l, r)) == Err(TypeOf(scope, l).error)
    ensures TypeOf(scope, l).Ok? && TypeOf(scope, r).Err? ==>
      TypeOf(scope, App(l, r)) == Err(TypeOf(scope, r).error)
  {
  }

  /** A well-typed expression only uses names its scope binds. */
  lemma {:induction false} TypedNamesAreBound(scope: Scope, e: Expr)
    requires TypeOf(scope, e).Ok?
    ensures forall x :: x in FreeVars(e) ==> x in Keys(scope)
    decreases e
  {
    match e
    case App(l, r) =>
      TypedNamesAreBound(scope, l);
      TypedNamesAreBound(scope, r);
    case Lam(s, t, b) =>
      TypedNamesAreBound(scope + [(s, t)], b);
      assert Keys(scope + [(s, t)]) == Keys(scope) + [s];
    case Lit(_) =>
    case Var(s) =>
  }

  /** Checking from the empty scope succeeds only on closed expressions, so
      the builtin operator names are rejected here. */
  lemma TypedFromEmptyIsClosed(e: Expr)
    requires TypeOf([], e).Ok?
    ensures FreeVars(e) == {}
    ensures forall x :: TypeOf([], Var(x)) == Err(NotFound(x))
  {
    TypedNamesAreBound([], e);
  }

  // ---------------------------------------------------------------------
  // Corrected checker: the innermost binding wins

  /** The type of the last (innermost) entry named `s`. */
  function LookupInnermost(scope: Scope, s: string): Option<Type>
  {
    match LastIndexOf(Keys(scope), s)
    case Some(i) => Some(scope[i].1)
    case None => None
  }

  /** `TypeOf` with variables resolved to their innermost binder, the way
      name removal resolves them. */
  function TypeOfInnermost(scope: Scope, e: Expr): Result<Type, TyckError>
    decreases e
  {
    match e
    case App(l, r) =>
      var lt :- TypeOfInnermost(scope, l);
      var rt :- TypeOfInnermost(scope, r);
      (match lt
       case Arr(d, c) => if d == rt then Ok(c) else Err(Mismatch(l, d, r, rt))
       case Int => Err(NotAFunction(l)))
    case Lam(s, t, b) =>
      var bt :- TypeOfInnermost(scope + [(s, t)], b);
      Ok(Arr(t, bt))
    case Lit(_) => Ok(Int)
    case Var(s) =>
      match LookupInnermost(scope, s)
      case Some(t) => Ok(t)
      case None => Err(NotFound(s))
  }
}
