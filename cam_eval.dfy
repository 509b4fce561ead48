/** Evaluation of combinators by term rewriting (src/cam/eval.rs).

    `Step` rewrites both operands of an application and then tries the
    combinator laws once at the top; evaluation repeats steps until one
    changes nothing. The module proves that such a fixpoint is exactly a
    term with no redex left (`Normal`), which is what evaluation returns. */
module CamEval {
  import opened Wrappers
  import Ast
  import N = Nameless
  import Cam

  datatype Combinator =
    | App
    | Apply(l: Combinator, r: Combinator)
    | Com(l: Combinator, r: Combinator)
    | DPair(l: Combinator, r: Combinator)
    | Fst
    | Lam(body: Combinator)
    | Name(name: string)
    | Num(n: Ast.u32)
    | Pair(l: Combinator, r: Combinator)
    | Quote(inner: Combinator)
    | Snd

  /** One of the combinator laws applies to `l` applied to `r`:
      `'x y`, `(x∘y) z`, `<x, y> z`, `App(Λ(x) y, z)`, `Fst(x, y)`, `Snd(x, y)`. */
  predicate Redex(l: Combinator, r: Combinator)
  {
    || l.Quote? || l.Com? || l.Pair?
    || (l.App? && r.DPair? && r.l.Apply? && r.l.l.Lam?)
    || ((l.Fst? || l.Snd?) && r.DPair?)
  }

  /** No redex anywhere in the term. */
  predicate Normal(c: Combinator)
  {
    match c
    case Apply(l, r) => Normal(l) && Normal(r) && !Redex(l, r)
    case Com(l, r) => Normal(l) && Normal(r)
    case DPair(l, r) => Normal(l) && Normal(r)
    case Pair(l, r) => Normal(l) && Normal(r)
    case Lam(b) => Normal(b)
    case Quote(b) => Normal(b)
    case _ => true
  }

  /** The top-level rewrite of `eval_step` on already stepped operands.
      The two fall-back arms under `App` rebuild the application they
      matched. */
  function Reduce(l: Combinator, r: Combinator): Combinator
  {
    match l
    case Quote(x) => x
    case Com(ll, lr) => Apply(ll, Apply(lr, r))
    case Pair(ll, lr) => DPair(Apply(ll, r), Apply(lr, r))
    case App =>
      (match r
       case DPair(rl, rr) =>
         (match rl
          case Apply(rll, rlr) =>
            (match rll
             case Lam(x) => Apply(x, DPair(rlr, rr))
             case _ => Apply(App, DPair(Apply(rll, rlr), rr)))
          case _ => Apply(App, DPair(rl, rr)))
       case _ => Apply(l, r))
    case Fst => if r.DPair? then r.l else Apply(l, r)
    case Snd => if r.DPair? then r.r else Apply(l, r)
    case _ => Apply(l, r)
  }

  /** Number of nodes. */
  function Size(c: Combinator): nat
  {
    match c
    case Apply(l, r) => 1 + Size(l) + Size(r)
    case Com(l, r) => 1 + Size(l) + Size(r)
    case DPair(l, r) => 1 + Size(l) + Size(r)
    case Pair(l, r) => 1 + Size(l) + Size(r)
    case Lam(b) => 1 + Size(b)
    case Quote(b) => 1 + Size(b)
    case _ => 1
  }

  /** The top-level rewrite changes the application exactly when it is a
      redex: the fall-back arms rebuild what they matched. */
  lemma ReduceChangesIffRedex(l: Combinator, r: Combinator)
    ensures Reduce(l, r) == Apply(l, r) <==> !Redex(l, r)
  {
    match l
    case Quote(x) =>
      assert Size(x) < Size(Apply(l, r));
    case Com(ll, _) =>
      assert Size(ll) < Size(l);
    case App =>
      if r.DPair? && r.l.Apply? && r.l.l.Lam? {
        assert Size(r.l.r) < Size(r.l);
      }
    case Fst =>
      if r.DPair? {
        assert Size(r.l) < Size(Apply(l, r));
      }
    case Snd =>
      if r.DPair? {
        assert Size(r.r) < Size(Apply(l, r));
      }
    case _ =>
  }

  /** `eval_step`: every node is rebuilt from its stepped children, and an
      application is then reduced at the top. */
  function Step(c: Combinator): Combinator
  {
    match c
    case Apply(l, r) => Reduce(Step(l), Step(r))
    case Com(l, r) => Com(Step(l), Step(r))
    case DPair(l, r) => DPair(Step(l), Step(r))
    case Pair(l, r) => Pair(Step(l), Step(r))
    case Lam(b) => Lam(Step(b))
    case Quote(b) => Quote(Step(b))
    case App => App
    case Fst => Fst
    case Name(n) => Name(n)
    case Num(n) => Num(n)
    case Snd => Snd
  }

  /** `k` steps. */
  function Iterate(c: Combinator, k: nat): Combinator
    decreases k
  {
    if k == 0 then c else Iterate(Step(c), k - 1)
  }

  /** `eval` with a bound on the number of steps: the first term a step
      leaves unchanged, or None when `fuel` steps did not reach one. */
  function EvalFuel(c: Combinator, fuel: nat): (r: Option<Combinator>)
    ensures r.Some? ==> Step(r.value) == r.value
    decreases fuel
  {
    if fuel == 0 then None
    else
      var next := Step(c);
      if next == c then Some(next) else EvalFuel(next, fuel - 1)
  }

  /** `eval`: steps until a step changes nothing. */
  method Eval(c: Combinator, fuel: nat) returns (r: Option<Combinator>)
    ensures r == EvalFuel(c, fuel)
  {
    var cur := c;
    var remaining := fuel;
    while remaining > 0
      invariant EvalFuel(cur, remaining) == EvalFuel(c, fuel)
      decreases remaining
    {
      var last := cur;
      cur := Step(cur);
      if cur == last {
        return Some(cur);
      }
      remaining := remaining - 1;
    }
    return None;
  }

  // ---------------------------------------------------------------------
  // Fixpoints of a step are the normal forms

  /** `a` occurs strictly inside `c`. */
  predicate Inside(a: Combinator, c: Combinator)
  {
    match c
    case Apply(l, r) => a == l || Inside(a, l) || a == r || Inside(a, r)
    case Com(l, r) => a == l || Inside(a, l) || a == r || Inside(a, r)
    case DPair(l, r) => a == l || Inside(a, l) || a == r || Inside(a, r)
    case Pair(l, r) => a == l || Inside(a, l) || a == r || Inside(a, r)
    case Lam(b) => a == b || Inside(a, b)
    case Quote(b) => a == b || Inside(a, b)
    case _ => false
  }

  predicate Occurs(a: Combinator, c: Combinator)
  {
    a == c || Inside(a, c)
  }

  /** Containment is transitive: if `a` is inside `b` and `b` occurs in
      `c`, then `a` is inside `c`. */
  lemma InsideTrans(a: Combinator, b: Combinator, c: Combinator)
    ensures Inside(a, b) && Occurs(b, c) ==> Inside(a, c)
  {
    if Inside(a, b) && Occurs(b, c) {
      InsideChain(a, b, c);
    }
  }

  lemma {:induction false} InsideChain(a: Combinator, b: Combinator, c: Combinator)
    requires Inside(a, b) && Occurs(b, c)
    ensures Inside(a, c)
  {
    if b != c {
      if c.Apply? || c.Com? || c.DPair? || c.Pair? {
        if Occurs(b, c.l) {
          InsideChain(a, b, c.l);
        } else {
          InsideChain(a, b, c.r);
        }
      } else if c.Lam? {
        InsideChain(a, b, c.body);
      } else if c.Quote? {
        InsideChain(a, b, c.inner);
      }
    }
  }

  /** A step never produces a term that strictly contains the term it
      started from. */
  lemma {:induction false} StepNeverWraps(c: Combinator)
    ensures !Inside(c, Step(c))
  {
    match c
    case Apply(l, r) =>
      StepNeverWraps(l);
      StepNeverWraps(r);
      var l', r' := Step(l), Step(r);
      assert Inside(l, c) && Inside(r, c);
      InsideTrans(l, c, l');
      InsideTrans(r, c, r');
      match l' {
        case Quote(x) =>
          InsideTrans(l, c, x);
        case Com(a, b) =>
          InsideTrans(l, c, a);
          InsideTrans(l, c, b);
        case Pair(a, b) =>
          InsideTrans(l, c, a);
          InsideTrans(l, c, b);
        case App =>
          if r'.DPair? && r'.l.Apply? && r'.l.l.Lam? {
            var x, y := r'.l.l.body, r'.l.r;
            assert Inside(x, r') && Inside(y, r');
            InsideTrans(r, c, x);
            InsideTrans(r, x, r');
            InsideTrans(r, c, y);
            InsideTrans(r, y, r');
            InsideTrans(r, c, r'.r);
          }
        case Fst =>
          if r'.DPair? {
            InsideTrans(r, c, r'.l);
          }
        case Snd =>
          if r'.DPair? {
            InsideTrans(r, c, r'.r);
          }
        case _ =>
      }
    case Com(l, r) =>
      StepNeverWraps(l);
      StepNeverWraps(r);
      InsideTrans(l, c, Step(l));
      InsideTrans(r, c, Step(r));
    case DPair(l, r) =>
      StepNeverWraps(l);
      StepNeverWraps(r);
      InsideTrans(l, c, Step(l));
      InsideTrans(r, c, Step(r));
    case Pair(l, r) =>
      StepNeverWraps(l);
      StepNeverWraps(r);
      InsideTrans(l, c, Step(l));
      InsideTrans(r, c, Step(r));
    case Lam(b) =>
      StepNeverWraps(b);
      InsideTrans(b, c, Step(b));
    case Quote(b) =>
      StepNeverWraps(b);
      InsideTrans(b, c, Step(b));
    case _ =>
  }

  /** A term with no redex is left alone by a step. */
  lemma {:induction false} NormalIsFixpoint(c: Combinator)
    requires Normal(c)
    ensures Step(c) == c
  {
    match c
    case Apply(l, r) =>
      NormalIsFixpoint(l);
      NormalIsFixpoint(r);
    case Com(l, r) =>
      NormalIsFixpoint(l);
      NormalIsFixpoint(r);
    case DPair(l, r) =>
      NormalIsFixpoint(l);
      NormalIsFixpoint(r);
    case Pair(l, r) =>
      NormalIsFixpoint(l);
      NormalIsFixpoint(r);
    case Lam(b) =>
      NormalIsFixpoint(b);
    case Quote(b) =>
      NormalIsFixpoint(b);
    case _ =>
  }

  /** A term a step leaves alone has no redex: where a step changes an
      operand, the result cannot rebuild the application it came from. */
  lemma {:induction false} FixpointIsNormal(c: Combinator)
    requires Step(c) == c
    ensures Normal(c)
  {
    match c
    case Apply(l, r) =>
      StepNeverWraps(l);
      StepNeverWraps(r);
      StepNeverWraps(if r.DPair? then r.l else r);
      assert Step(l) == l && Step(r) == r;
      FixpointIsNormal(l);
      FixpointIsNormal(r);
    case Com(l, r) =>
      FixpointIsNormal(l);
      FixpointIsNormal(r);
    case DPair(l, r) =>
      FixpointIsNormal(l);
      FixpointIsNormal(r);
    case Pair(l, r) =>
      FixpointIsNormal(l);
      FixpointIsNormal(r);
    case Lam(b) =>
      FixpointIsNormal(b);
    case Quote(b) =>
      FixpointIsNormal(b);
    case _ =>
  }

  /** The stopping test of `eval` holds exactly on the normal forms. */
  lemma FixpointIffNormal(c: Combinator)
    ensures Step(c) == c <==> Normal(c)
  {
    if Step(c) == c {
      FixpointIsNormal(c);
    }
    if Normal(c) {
      NormalIsFixpoint(c);
    }
  }

  // ---------------------------------------------------------------------
  // What bounded evaluation returns

  /** `c` first stops changing after `k` steps. */
  ghost predicate FirstFixpointAt(c: Combinator, k: nat)
  {
    && Step(Iterate(c, k)) == Iterate(c, k)
    && forall j :: 0 <= j < k ==> Step(Iterate(c, j)) != Iterate(c, j)
  }

  /** Bounded evaluation returns the normal form reached after the least
      number of steps, when that number is below the fuel, and fails
      otherwise. */
  lemma {:induction false} EvalFuelIsFirstFixpoint(c: Combinator, fuel: nat, k: nat)
    requires FirstFixpointAt(c, k)
    ensures EvalFuel(c, fuel) == if k < fuel then Some(Iterate(c, k)) else None
    ensures Normal(Iterate(c, k))
    decreases fuel
  {
    FixpointIsNormal(Iterate(c, k));
    if fuel > 0 && k > 0 {
      assert Step(Iterate(c, 0)) != Iterate(c, 0);
      forall j | 0 <= j < k - 1
        ensures Step(Iterate(Step(c), j)) != Iterate(Step(c), j)
      {
        assert Iterate(c, j + 1) == Iterate(Step(c), j);
      }
      assert Iterate(c, k) == Iterate(Step(c), k - 1);
      EvalFuelIsFirstFixpoint(Step(c), fuel - 1, k - 1);
    }
  }

  /** Whatever bounded evaluation returns is a normal form reached by
      iterating steps. */
  lemma {:induction false} EvalFuelSound(c: Combinator, fuel: nat)
    requires EvalFuel(c, fuel).Some?
    ensures Normal(EvalFuel(c, fuel).value)
    ensures exists k :: 0 <= k < fuel && FirstFixpointAt(c, k) && Iterate(c, k) == EvalFuel(c, fuel).value
    decreases fuel
  {
    FixpointIsNormal(EvalFuel(c, fuel).value);
    if Step(c) == c {
      assert FirstFixpointAt(c, 0) && Iterate(c, 0) == EvalFuel(c, fuel).value;
    } else {
      EvalFuelSound(Step(c), fuel - 1);
      var k :| 0 <= k < fuel - 1 && FirstFixpointAt(Step(c), k) && Iterate(Step(c), k) == EvalFuel(c, fuel).value;
      assert Iterate(c, k + 1) == Iterate(Step(c), k);
      forall j | 0 <= j < k + 1
        ensures Step(Iterate(c, j)) != Iterate(c, j)
      {
        if j > 0 {
          assert Iterate(c, j) == Iterate(Step(c), j - 1);
        }
      }
      assert FirstFixpointAt(c, k + 1);
    }
  }

  /** More fuel never changes a result. */
  lemma {:induction false} EvalFuelMonotone(c: Combinator, fuel: nat, more: nat)
    requires EvalFuel(c, fuel).Some? && fuel <= more
    ensures EvalFuel(c, more) == EvalFuel(c, fuel)
    decreases fuel
  {
    if Step(c) != c {
      EvalFuelMonotone(Step(c), fuel - 1, more - 1);
    }
  }

  /** Evaluating a result again returns it after one step. */
  lemma EvalIdempotent(c: Combinator, fuel: nat)
    requires EvalFuel(c, fuel).Some?
    ensures EvalFuel(EvalFuel(c, fuel).value, 1) == EvalFuel(c, fuel)
  {
  }

  // ---------------------------------------------------------------------
  // Static combinators

  /** `From<StaticCombinator>`: a quoted name or number becomes a quote of
      a bare one. */
  function Lift(s: Cam.StaticCombinator): Combinator
  {
    match s
    case App => App
    case Com(l, r) => Com(Lift(l), Lift(r))
    case Fst => Fst
    case Lam(b) => Lam(Lift(b))
    case Pair(l, r) => Pair(Lift(l), Lift(r))
    case QuoteName(n) => Quote(Name(n))
    case QuoteNum(n) => Quote(Num(n))
    case Snd => Snd
  }

  /** The static combinator a dynamic one came from, if any. */
  function Lower(c: Combinator): (s: Option<Cam.StaticCombinator>)
  {
    match c
    case App => Some(Cam.App)
    case Com(l, r) =>
      var l' :- Lower(l);
      var r' :- Lower(r);
      Some(Cam.Com(l', r'))
    case Fst => Some(Cam.Fst)
    case Lam(b) =>
      var b' :- Lower(b);
      Some(Cam.Lam(b'))
    case Pair(l, r) =>
      var l' :- Lower(l);
      var r' :- Lower(r);
      Some(Cam.Pair(l', r'))
    case Quote(Name(n)) => Some(Cam.QuoteName(n))
    case Quote(Num(n)) => Some(Cam.QuoteNum(n))
    case Snd => Some(Cam.Snd)
    case _ => None
  }

  /** Lifting loses nothing. */
  lemma {:induction false} LowerLift(s: Cam.StaticCombinator)
    ensures Lower(Lift(s)) == Some(s)
  {
    match s
    case Com(l, r) =>
      LowerLift(l);
      LowerLift(r);
    case Lam(b) =>
      LowerLift(b);
    case Pair(l, r) =>
      LowerLift(l);
      LowerLift(r);
    case _ =>
  }

  /** The dynamic combinators that lower are exactly the lifted ones. */
  lemma {:induction false} LiftLower(c: Combinator)
    requires Lower(c).Some?
    ensures Lift(Lower(c).value) == c
  {
    match c
    case Com(l, r) =>
      LiftLower(l);
      LiftLower(r);
    case Lam(b) =>
      LiftLower(b);
    case Pair(l, r) =>
      LiftLower(l);
      LiftLower(r);
    case _ =>
  }

  /** A compiled term contains no application, so it is already normal:
      evaluation starts only once it is applied to an environment. */
  lemma {:induction false} LiftIsNormal(s: Cam.StaticCombinator)
    ensures Normal(Lift(s))
    ensures Step(Lift(s)) == Lift(s)
  {
    match s
    case Com(l, r) =>
      LiftIsNormal(l);
      LiftIsNormal(r);
    case Lam(b) =>
      LiftIsNormal(b);
    case Pair(l, r) =>
      LiftIsNormal(l);
      LiftIsNormal(r);
    case _ =>
  }

  /** No `Apply` node anywhere in the term. */
  predicate ApplyFree(c: Combinator)
  {
    match c
    case Apply(_, _) => false
    case Com(l, r) => ApplyFree(l) && ApplyFree(r)
    case DPair(l, r) => ApplyFree(l) && ApplyFree(r)
    case Pair(l, r) => ApplyFree(l) && ApplyFree(r)
    case Lam(b) => ApplyFree(b)
    case Quote(b) => ApplyFree(b)
    case _ => true
  }

  /** Only an application can be rewritten: a term without one is normal,
      and `eval_step` returns it unchanged. */
  lemma {:induction false} ApplyFreeIsFixpoint(c: Combinator)
    requires ApplyFree(c)
    ensures Normal(c)
    ensures Step(c) == c
  {
    match c
    case Com(l, r) =>
      ApplyFreeIsFixpoint(l);
      ApplyFreeIsFixpoint(r);
    case DPair(l, r) =>
      ApplyFreeIsFixpoint(l);
      ApplyFreeIsFixpoint(r);
    case Pair(l, r) =>
      ApplyFreeIsFixpoint(l);
      ApplyFreeIsFixpoint(r);
    case Lam(b) =>
      ApplyFreeIsFixpoint(b);
    case Quote(b) =>
      ApplyFreeIsFixpoint(b);
    case _ =>
  }

  // ---------------------------------------------------------------------
  // Variables

  /** The `n`-th most recent binding of an environment built of dynamic
      pairs `(outer, newest)`. */
  function EnvAt(env: Combinator, n: nat): Option<Combinator>
  {
    if !env.DPair? then None
    else if n == 0 then Some(env.r)
    else EnvAt(env.l, n - 1)
  }

  /** A compiled variable with index `n`, applied to a normal environment
      deep enough for it, evaluates in `n + 1` steps to its binding. */
  lemma {:induction false} CompiledVarProjects(n: nat, env: Combinator)
    requires Normal(env) && EnvAt(env, n).Some?
    ensures Iterate(Apply(Lift(Cam.ToCombinator(N.Var(n))), env), n + 1) == EnvAt(env, n).value
  {
    if n > 0 {
      VarStepsToOuter(n, env);
      assert Normal(env.l);
      CompiledVarProjects(n - 1, env.l);
    } else {
      NormalIsFixpoint(env);
      assert Iterate(Apply(Snd, env), 1) == Step(Apply(Snd, env)) == Reduce(Snd, env);
    }
  }

  /** One binder down: `Var(n)` on `(outer, v)` behaves as `Var(n - 1)` on
      `outer`, after one more step. */
  lemma VarStepsToOuter(n: nat, env: Combinator)
    requires n > 0 && Normal(env) && env.DPair?
    ensures Iterate(Apply(Lift(Cam.ToCombinator(N.Var(n))), env), n + 1)
         == Iterate(Apply(Lift(Cam.ToCombinator(N.Var(n - 1))), env.l), n)
  {
    NormalIsFixpoint(env);
    var f := Lift(Cam.ToCombinator(N.Var(n - 1)));
    LiftIsNormal(Cam.ToCombinator(N.Var(n - 1)));
    var outer := env.l;
    assert Normal(outer);
    NormalIsFixpoint(outer);
    var c := Apply(Lift(Cam.ToCombinator(N.Var(n))), env);
    assert Lift(Cam.ToCombinator(N.Var(n))) == Com(f, Fst);
    assert Step(c) == Apply(f, Apply(Fst, env));
    assert Step(Apply(Fst, env)) == outer;
    assert Step(Apply(f, Apply(Fst, env))) == Reduce(f, outer) == Step(Apply(f, outer));
    calc {
      Iterate(c, n + 1);
      Iterate(Apply(f, Apply(Fst, env)), n);
      Iterate(Step(Apply(f, outer)), n - 1);
      Iterate(Apply(f, outer), n);
    }
  }
}
