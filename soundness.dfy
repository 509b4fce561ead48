/** How the type checker (src/tyck.rs) and name removal (src/nameless.rs)
    fit together: a term the checker accepts always converts, but the two
    stages resolve a repeated binder name differently, so the type the
    checker reports is not always the type of the converted term. */
module Soundness {
  import opened Wrappers
  import opened Ast
  import opened Scopes
  import opened Tyck
  import N = Nameless

  /** The binder types of a scope, in order. */
  function Types(scope: Scope): (ts: seq<Type>)
    ensures |ts| == |scope|
    ensures forall i :: 0 <= i < |scope| ==> ts[i] == scope[i].1
  {
    seq(|scope|, i requires 0 <= i < |scope| => scope[i].1)
  }

  /** Typing of de Bruijn terms: index `i` has the type of the binder `i`
      places from the top of `ctx`. No global name is typed. */
  ghost predicate NamelessTyped(ctx: seq<Type>, t: N.NamelessExpr, ty: Type)
    decreases t
  {
    match t
    case App(l, r) => exists d :: NamelessTyped(ctx, l, Arr(d, ty)) && NamelessTyped(ctx, r, d)
    case Lam(b) => ty.Arr? && NamelessTyped(ctx + [ty.dom], b, ty.cod)
    case Lit(_) => ty == Int
    case Nam(_) => false
    case Var(i) => i < |ctx| && ctx[|ctx| - 1 - i] == ty
  }

  // ---------------------------------------------------------------------
  // A checked term converts

  /** Whatever the checker accepts, name removal accepts under the same
      binders, and the result refers to no global name (the checker binds
      no builtin). */
  lemma {:induction false} TypedTermsConvert(scope: Scope, e: Expr)
    requires TypeOf(scope, e).Ok?
    ensures N.RemoveNames(Keys(scope), e).Ok?
    ensures N.NoGlobals(N.RemoveNames(Keys(scope), e).value)
    decreases e
  {
    match e
    case App(l, r) =>
      TypedTermsConvert(scope, l);
      TypedTermsConvert(scope, r);
    case Lam(s, t, b) =>
      TypedTermsConvert(scope + [(s, t)], b);
      assert Keys(scope + [(s, t)]) == Keys(scope) + [s];
    case Lit(_) =>
    case Var(x) =>
      assert x in Keys(scope);
  }

  // ---------------------------------------------------------------------
  // With innermost lookup the type carries over

  /** The corrected checker's type is a type of the converted term. */
  lemma {:induction false} InnermostTypingPreserved(scope: Scope, e: Expr)
    requires TypeOfInnermost(scope, e).Ok?
    ensures N.RemoveNames(Keys(scope), e).Ok?
    ensures NamelessTyped(Types(scope), N.RemoveNames(Keys(scope), e).value, TypeOfInnermost(scope, e).value)
    decreases e
  {
    match e
    case App(l, r) =>
      InnermostTypingPreserved(scope, l);
      InnermostTypingPreserved(scope, r);
      var d := TypeOfInnermost(scope, r).value;
      assert NamelessTyped(Types(scope), N.RemoveNames(Keys(scope), l).value, Arr(d, TypeOfInnermost(scope, e).value));
    case Lam(s, t, b) =>
      InnermostTypingPreserved(scope + [(s, t)], b);
      assert Keys(scope + [(s, t)]) == Keys(scope) + [s];
      assert Types(scope + [(s, t)]) == Types(scope) + [t];
    case Lit(_) =>
    case Var(x) =>
      var p := LastIndexOf(Keys(scope), x).value;
      assert N.ResolveName(Keys(scope), x) == Ok(N.Var(|scope| - p - 1));
  }

  // ---------------------------------------------------------------------
  // Shadowing is the only source of disagreement

  /** No binder of `e` reuses a name of `names` or of an enclosing binder
      of `e`. */
  predicate ShadowFree(names: seq<string>, e: Expr)
    decreases e
  {
    match e
    case App(l, r) => ShadowFree(names, l) && ShadowFree(names, r)
    case Lam(s, _, b) => s !in names && ShadowFree(names + [s], b)
    case Lit(_) => true
    case Var(_) => true
  }

  /** When no name is bound twice, outermost and innermost lookup give the
      same checker. */
  lemma {:induction false} CheckersAgreeWithoutShadowing(scope: Scope, e: Expr)
    requires Distinct(Keys(scope)) && ShadowFree(Keys(scope), e)
    ensures TypeOf(scope, e) == TypeOfInnermost(scope, e)
    decreases e
  {
    match e
    case App(l, r) =>
      CheckersAgreeWithoutShadowing(scope, l);
      CheckersAgreeWithoutShadowing(scope, r);
    case Lam(s, t, b) =>
      var inner := scope + [(s, t)];
      assert Keys(inner) == Keys(scope) + [s];
      CheckersAgreeWithoutShadowing(inner, b);
    case Lit(_) =>
    case Var(x) =>
      SearchesAgreeWhenDistinct(Keys(scope), x);
  }

  /** The disagreement, on `λx:int. λx:(int) -> int. x`: the checker takes
      the outer `x`, name removal the inner one, so the reported type is not
      a type of the converted term, while the corrected checker's is. */
  lemma ShadowedBinderTypedWrongly()
    ensures var e := Lam("x", Int, Lam("x", Arr(Int, Int), Var("x")));
      var t := Arr(Int, Arr(Arr(Int, Int), Int));
      && TypeOf([], e) == Ok(t)
      && N.RemoveNames([], e) == Ok(N.Lam(N.Lam(N.Var(0))))
      && !NamelessTyped([], N.Lam(N.Lam(N.Var(0))), t)
      && TypeOfInnermost([], e) == Ok(Arr(Int, Arr(Arr(Int, Int), Arr(Int, Int))))
  {
    var scope: Scope := [("x", Int), ("x", Arr(Int, Int))];
    assert Keys(scope) == ["x", "x"];
    assert Lookup(scope, "x") == Some(Int);
    assert LastIndexOf(Keys(scope), "x") == Some(1);
    assert LookupInnermost(scope, "x") == Some(Arr(Int, Int));
    assert Keys([] + [("x", Int)]) == ["x"];
    assert [] + [("x", Int)] + [("x", Arr(Int, Int))] == scope;
    assert LastIndexOf(["x", "x"], "x") == Some(1);
  }
}
