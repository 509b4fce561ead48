/** The const/id program of src/tests.rs, `(λx:int. λy:int. x) ((λx:int. x) 42) 137`,
    followed through every stage, and a term the checker rejects. */
module Examples {
  import opened Wrappers
  import opened Ast
  import opened Tyck
  import N = Nameless
  import Cam
  import Scopes
  import E = CamEval

  /** The parsed const/id program. */
  function ConstId(): Expr
  {
    App(App(Lam("x", Int, Lam("y", Int, Var("x"))), App(Lam("x", Int, Var("x")), Lit(42))), Lit(137))
  }

  /** It prints with every application and lambda parenthesised, as
      `(((λx:int. (λy:int. x)) ((λx:int. x) 42)) 137)`; the expected text is
      written in the pieces the printer glues together. */
  lemma ConstIdPrints()
    ensures ShowExpr(ConstId())
         == "(" + ("(" + "(λx:int. (λy:int. x))" + " " + "((λx:int. x) 42)" + ")") + " " + "137" + ")"
  {
    ConstPrints();
    IdAppPrints();
    NumeralPrints137();
  }

  lemma NumeralPrints137()
    ensures Decimal(137) == "137"
  {
    assert DigitChar(1) == '1' && DigitChar(3) == '3' && DigitChar(7) == '7';
    assert Decimal(13) == Decimal(1) + [DigitChar(3)];
  }

  lemma ConstPrints()
    ensures ShowExpr(Lam("x", Int, Lam("y", Int, Var("x")))) == "(λx:int. (λy:int. x))"
  {
    assert ShowExpr(Lam("y", Int, Var("x"))) == "(λy:int. x)";
  }

  lemma IdAppPrints()
    ensures ShowExpr(App(Lam("x", Int, Var("x")), Lit(42))) == "((λx:int. x) 42)"
  {
    assert DigitChar(4) == '4' && DigitChar(2) == '2';
    assert Decimal(42) == Decimal(4) + [DigitChar(2)];
    assert ShowExpr(Lam("x", Int, Var("x"))) == "(λx:int. x)";
  }

  /** It is a closed term of type `int`. */
  lemma ConstIdTypes()
    ensures TypeOf([], ConstId()) == Ok(Int)
  {
    assert Keys([("x", Int), ("y", Int)]) == ["x", "y"];
    assert Keys([("x", Int)]) == ["x"];
    assert Lookup([("x", Int), ("y", Int)], "x") == Some(Int);
    assert Lookup([("x", Int)], "x") == Some(Int);
  }

  /** The de Bruijn form: the outer `x` is one binder up, the inner one is
      the nearest binder. */
  lemma ConstIdNameless()
    ensures N.RemoveNames([], ConstId())
      == Ok(N.App(N.App(N.Lam(N.Lam(N.Var(1))), N.App(N.Lam(N.Var(0)), N.Lit(42))), N.Lit(137)))
  {
    ConstNameless();
    IdAppNameless();
  }

  lemma ConstNameless()
    ensures N.RemoveNames([], Lam("x", Int, Lam("y", Int, Var("x")))) == Ok(N.Lam(N.Lam(N.Var(1))))
  {
    assert [] + ["x"] + ["y"] == ["x", "y"];
    assert Scopes.LastIndexOf(["x", "y"], "x") == Some(0);
  }

  lemma IdAppNameless()
    ensures N.RemoveNames([], App(Lam("x", Int, Var("x")), Lit(42))) == Ok(N.App(N.Lam(N.Var(0)), N.Lit(42)))
  {
    assert [] + ["x"] == ["x"];
    assert Scopes.LastIndexOf(["x"], "x") == Some(0);
  }

  /** The combinator tree of the de Bruijn form. */
  lemma ConstIdCombinator()
    ensures Cam.ToCombinator(N.App(N.App(N.Lam(N.Lam(N.Var(1))), N.App(N.Lam(N.Var(0)), N.Lit(42))), N.Lit(137)))
      == Cam.Com(Cam.App, Cam.Pair(
           Cam.Com(Cam.App, Cam.Pair(
             Cam.Lam(Cam.Lam(Cam.Com(Cam.Snd, Cam.Fst))),
             Cam.Com(Cam.App, Cam.Pair(Cam.Lam(Cam.Snd), Cam.QuoteNum(42))))),
           Cam.QuoteNum(137)))
  {
    assert Cam.ToCombinator(N.Var(1)) == Cam.Com(Cam.Snd, Cam.Fst);
  }

  /** The terms `eval_step` passes through on the const/id program run on
      the environment `0`. */
  function Trace(i: nat): E.Combinator
    requires i <= 7
  {
    var arg := E.Com(E.App, E.Pair(E.Lam(E.Snd), E.Quote(E.Num(42))));
    var body := E.Com(E.App, E.Pair(E.Lam(E.Lam(E.Com(E.Snd, E.Fst))), arg));
    if i == 0 then E.Apply(E.Com(E.App, E.Pair(body, E.Quote(E.Num(137)))), E.Num(0))
    else if i == 1 then E.Apply(E.App, E.Apply(E.Pair(body, E.Quote(E.Num(137))), E.Num(0)))
    else if i == 2 then E.Apply(E.App, E.DPair(E.Apply(body, E.Num(0)), E.Apply(E.Quote(E.Num(137)), E.Num(0))))
    else if i == 3 then
      E.Apply(E.App, E.DPair(E.Apply(E.App, E.Apply(E.Pair(E.Lam(E.Lam(E.Com(E.Snd, E.Fst))), arg), E.Num(0))), E.Num(137)))
    else if i == 4 then E.Apply(E.Com(E.Snd, E.Fst), E.DPair(E.DPair(E.Num(0), E.Apply(arg, E.Num(0))), E.Num(137)))
    else if i == 5 then
      E.Apply(E.Snd, E.Apply(E.Fst, E.DPair(E.DPair(E.Num(0),
        E.Apply(E.App, E.Apply(E.Pair(E.Lam(E.Snd), E.Quote(E.Num(42))), E.Num(0)))), E.Num(137))))
    else if i == 6 then E.Apply(E.Snd, E.DPair(E.Num(0), E.Apply(E.Quote(E.Num(42)), E.Num(0))))
    else E.Num(42)
  }

  /** Each step of the trace. */
  lemma TraceSteps(i: nat)
    requires i < 7
    ensures E.Step(Trace(i)) == Trace(i + 1)
  {
  }

  /** The trace starts at the lifted combinator tree of the program. */
  lemma TraceStart()
    ensures Trace(0) == E.Apply(E.Lift(Cam.Com(Cam.App, Cam.Pair(
           Cam.Com(Cam.App, Cam.Pair(
             Cam.Lam(Cam.Lam(Cam.Com(Cam.Snd, Cam.Fst))),
             Cam.Com(Cam.App, Cam.Pair(Cam.Lam(Cam.Snd), Cam.QuoteNum(42))))),
           Cam.QuoteNum(137)))), E.Num(0))
  {
  }

  /** Run on the environment `0`, the program rewrites to 42 in seven steps,
      and the eighth changes nothing: eight units of fuel are needed and
      enough. */
  lemma {:induction false} ConstIdEvaluates(k: nat)
    requires k <= 7
    ensures E.EvalFuel(Trace(k), 8 - k) == Some(E.Num(42))
    ensures E.EvalFuel(Trace(k), 7 - k) == None
    decreases 7 - k
  {
    if k < 7 {
      TraceSteps(k);
      ConstIdEvaluates(k + 1);
      EvalMoves(Trace(k), 8 - k);
      if k < 6 {
        EvalMoves(Trace(k), 7 - k);
      }
    } else {
      assert E.Step(E.Num(42)) == E.Num(42);
    }
  }

  /** A step that changes the term costs one unit of fuel. */
  lemma EvalMoves(c: E.Combinator, fuel: nat)
    requires fuel > 0 && E.Step(c) != c
    ensures E.EvalFuel(c, fuel) == E.EvalFuel(E.Step(c), fuel - 1)
  {
  }

  /** The whole pipeline: the program converts, compiles, and its
      combinator tree run on the environment `0` evaluates to 42. */
  lemma ConstIdRunsTo42()
    ensures var t := N.RemoveNames([], ConstId());
      && t.Ok?
      && E.EvalFuel(E.Apply(E.Lift(Cam.ToCombinator(t.value)), E.Num(0)), 8) == Some(E.Num(42))
  {
    ConstIdNameless();
    ConstIdCombinator();
    TraceStart();
    ConstIdEvaluates(0);
  }

  /** Applying a number is rejected with the source's message. */
  lemma NumberIsNotAFunction()
    ensures TypeOf([], App(Lit(1), Lit(2))) == Err(NotAFunction(Lit(1)))
    ensures TypeOf([], App(Lit(1), Lit(2))).error.Message() == "Not a function: 1"
  {
    assert Decimal(1) == "1";
  }
}
