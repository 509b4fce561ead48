/** Compilation of nameless terms to Categorical Abstract Machine
    combinators, and of lambda-free combinators to Forth words
    (src/cam/mod.rs).

    The second half of the module gives the combinators the meaning their
    doc comments state (`Fst(x, y) = x`, `<x,y>z = (xz,yz)`, `(x∘y)z = x(yz)`,
    `'xy = x`) and models the Forth words the emitted code uses, so that the
    serializer can be proved to implement that meaning. `FSTLC-APP` belongs
    to the runtime prelude, which is not part of this model: both sides take
    its behaviour as a parameter. */
module Cam {
  import opened Wrappers
  import Ast
  import N = Nameless

  datatype StaticCombinator =
    | App
    | Com(l: StaticCombinator, r: StaticCombinator)
    | Fst
    | Lam(body: StaticCombinator)
    | Pair(l: StaticCombinator, r: StaticCombinator)
    | QuoteName(name: string)
    | QuoteNum(n: Ast.u32)
    | Snd

  /** A measure under which `Var(n - 1)` is smaller than `Var(n)`. */
  function Size(t: N.NamelessExpr): nat
  {
    match t
    case App(l, r) => 1 + Size(l) + Size(r)
    case Lam(b) => 1 + Size(b)
    case Lit(_) => 1
    case Nam(_) => 1
    case Var(n) => 1 + n
  }

  predicate NoLambdas(t: N.NamelessExpr)
  {
    match t
    case App(l, r) => NoLambdas(l) && NoLambdas(r)
    case Lam(_) => false
    case Lit(_) => true
    case Nam(_) => true
    case Var(_) => true
  }

  predicate LamFree(c: StaticCombinator)
  {
    match c
    case Com(l, r) => LamFree(l) && LamFree(r)
    case Lam(_) => false
    case Pair(l, r) => LamFree(l) && LamFree(r)
    case _ => true
  }

  /** `to_combinator`. A variable becomes `Snd` composed after as many `Fst`
      projections as its index. Lambdas survive exactly where the term has
      them, so a lambda-free term compiles to code `ToForth` accepts. */
  function ToCombinator(t: N.NamelessExpr): (c: StaticCombinator)
    ensures LamFree(c) <==> NoLambdas(t)
    decreases Size(t)
  {
    match t
    case App(l, r) => Com(App, Pair(ToCombinator(l), ToCombinator(r)))
    case Lam(b) => Lam(ToCombinator(b))
    case Lit(n) => QuoteNum(n)
    case Nam(n) => QuoteName(n)
    case Var(n) => if n == 0 then Snd else Com(ToCombinator(N.Var(n - 1)), Fst)
  }

  /** `to_forth`: the word list for a combinator; the right operand of a
      composition runs first. Its `Λ` arm is unimplemented in the source,
      hence the precondition. */
  function ToForth(c: StaticCombinator): seq<string>
    requires LamFree(c)
  {
    match c
    case App => ["FSTLC-APP"]
    case Com(l, r) => ToForth(r) + ToForth(l)
    case Fst => ["FSTLC-FST"]
    case Pair(l, r) => ["DUP"] + ToForth(l) + ["SWAP"] + ToForth(r) + ["FSTLC-MAKE-PAIR"]
    case QuoteName(n) => ["DROP", "'", n]
    case QuoteNum(n) => ["DROP", Ast.Decimal(n)]
    case Snd => ["FSTLC-SND"]
  }

  // ---------------------------------------------------------------------
  // Meaning of combinators

  /** Run-time values: numbers, references to named words, and pairs. */
  datatype Value = VNum(n: nat) | VName(name: string) | VPair(fst: Value, snd: Value)

  /** Behaviour of the prelude word `FSTLC-APP` (None: it fails). */
  type AppWord = Value -> Option<Value>

  /** A lambda-free combinator as a function on environment values; `None`
      when a projection meets a non-pair or the applied word fails. */
  function Denote(c: StaticCombinator, v: Value, app: AppWord): Option<Value>
    requires LamFree(c)
  {
    match c
    case App => app(v)
    case Com(l, r) =>
      (match Denote(r, v, app)
       case None => None
       case Some(w) => Denote(l, w, app))
    case Fst => if v.VPair? then Some(v.fst) else None
    case Pair(l, r) =>
      (match Denote(l, v, app)
       case None => None
       case Some(a) =>
         match Denote(r, v, app)
         case None => None
         case Some(b) => Some(VPair(a, b)))
    case QuoteName(n) => Some(VName(n))
    case QuoteNum(n) => Some(VNum(n))
    case Snd => if v.VPair? then Some(v.snd) else None
  }

  /** The `n`-th most recent binding of an environment built as nested
      pairs `(outer, newest)`. */
  function EnvAt(env: Value, n: nat): Option<Value>
  {
    if !env.VPair? then None
    else if n == 0 then Some(env.snd)
    else EnvAt(env.fst, n - 1)
  }

  /** A compiled variable reads its binding out of the environment, and
      fails exactly when the environment is not deep enough. */
  lemma {:induction false} CompiledVarReadsEnv(n: nat, env: Value, app: AppWord)
    ensures LamFree(ToCombinator(N.Var(n)))
    ensures Denote(ToCombinator(N.Var(n)), env, app) == EnvAt(env, n)
  {
    if n > 0 {
      CompiledVarReadsEnv(n - 1, if env.VPair? then env.fst else env, app);
    }
  }

  // ---------------------------------------------------------------------
  // The Forth words the emitted code uses

  function Top(st: seq<Value>): Value
    requires st != []
  {
    st[|st| - 1]
  }

  function Below(st: seq<Value>): seq<Value>
    requires st != []
  {
    st[..|st| - 1]
  }

  predicate IsNumeral(w: string)
  {
    w != [] && Ast.AllDigits(w)
  }

  /** The effect of one word on the data stack (top last); `None` when the
      word fails or is unknown. `'` is handled by `Run`, as it reads the
      next word. */
  function Word(w: string, st: seq<Value>, app: AppWord): Option<seq<Value>>
  {
    if w == "DUP" then
      if st == [] then None else Some(st + [Top(st)])
    else if w == "SWAP" then
      if |st| < 2 then None else Some(Below(Below(st)) + [Top(st), Top(Below(st))])
    else if w == "DROP" then
      if st == [] then None else Some(Below(st))
    else if w == "FSTLC-FST" then
      if st == [] || !Top(st).VPair? then None else Some(Below(st) + [Top(st).fst])
    else if w == "FSTLC-SND" then
      if st == [] || !Top(st).VPair? then None else Some(Below(st) + [Top(st).snd])
    else if w == "FSTLC-MAKE-PAIR" then
      if |st| < 2 then None else Some(Below(Below(st)) + [VPair(Top(Below(st)), Top(st))])
    else if w == "FSTLC-APP" then
      if st == [] then None
      else match app(Top(st))
        case None => None
        case Some(v) => Some(Below(st) + [v])
    else if IsNumeral(w) then
      Some(st + [VNum(Ast.ParseDecimal(w))])
    else None
  }

  /** Runs a word list from left to right. */
  function Run(ws: seq<string>, st: seq<Value>, app: AppWord): Option<seq<Value>>
    decreases |ws|
  {
    if ws == [] then Some(st)
    else if ws[0] == "'" then
      if |ws| < 2 then None else Run(ws[2..], st + [VName(ws[1])], app)
    else
      match Word(ws[0], st, app)
      case None => None
      case Some(st') => Run(ws[1..], st', app)
  }

  /** Running one ordinary word and then the rest. */
  lemma RunWord(w: string, rest: seq<string>, st: seq<Value>, app: AppWord)
    requires w != "'"
    ensures Run([w] + rest, st, app) ==
      match Word(w, st, app)
      case None => None
      case Some(st') => Run(rest, st', app)
  {
    assert ([w] + rest)[0] == w;
    assert ([w] + rest)[1..] == rest;
  }

  /** A decimal numeral is none of the named words. */
  lemma NumeralIsNotAWord(n: nat)
    ensures var w := Ast.Decimal(n);
      && IsNumeral(w)
      && w != "'" && w != "DUP" && w != "SWAP" && w != "DROP" && w != "FSTLC-FST"
      && w != "FSTLC-SND" && w != "FSTLC-MAKE-PAIR" && w != "FSTLC-APP"
  {
    var w := Ast.Decimal(n);
    assert Ast.IsDigit(w[0]);
  }

  /** The words `to_forth` emits replace the value on top of the stack by
      the combinator's meaning applied to it, leave the stack below alone,
      and fail exactly when the meaning does. */
  lemma {:induction false} ForthComputesDenotation(
    c: StaticCombinator, rest: seq<string>, st: seq<Value>, v: Value, app: AppWord)
    requires LamFree(c)
    ensures Run(ToForth(c) + rest, st + [v], app) ==
      match Denote(c, v, app)
      case None => None
      case Some(w) => Run(rest, st + [w], app)
    decreases c, 1
  {
    var s := st + [v];
    assert s != [] && Top(s) == v && Below(s) == st;
    match c
    case App =>
      RunWord("FSTLC-APP", rest, s, app);
    case Fst =>
      RunWord("FSTLC-FST", rest, s, app);
    case Snd =>
      RunWord("FSTLC-SND", rest, s, app);
    case QuoteName(n) =>
      ForthQuotesName(n, rest, st, v, app);
    case QuoteNum(n) =>
      ForthQuotesNum(n, rest, st, v, app);
    case Com(l, r) =>
      assert ToForth(c) + rest == ToForth(r) + (ToForth(l) + rest);
      ForthComputesDenotation(r, ToForth(l) + rest, st, v, app);
      match Denote(r, v, app) {
        case None =>
        case Some(w) =>
          ForthComputesDenotation(l, rest, st, w, app);
      }
    case Pair(l, r) =>
      ForthComputesPair(l, r, rest, st, v, app);
  }

  /** A quoted name drops the environment and pushes the name. */
  lemma ForthQuotesName(n: string, rest: seq<string>, st: seq<Value>, v: Value, app: AppWord)
    ensures Run(ToForth(QuoteName(n)) + rest, st + [v], app) == Run(rest, st + [VName(n)], app)
  {
    var s := st + [v];
    assert s != [] && Below(s) == st;
    assert ToForth(QuoteName(n)) + rest == ["DROP"] + (["'", n] + rest);
    RunWord("DROP", ["'", n] + rest, s, app);
    assert (["'", n] + rest)[2..] == rest;
  }

  /** A quoted number drops the environment and pushes the number. */
  lemma ForthQuotesNum(n: Ast.u32, rest: seq<string>, st: seq<Value>, v: Value, app: AppWord)
    ensures Run(ToForth(QuoteNum(n)) + rest, st + [v], app) == Run(rest, st + [VNum(n as nat)], app)
  {
    var s := st + [v];
    assert s != [] && Below(s) == st;
    var w := Ast.Decimal(n);
    assert ToForth(QuoteNum(n)) + rest == ["DROP"] + ([w] + rest);
    RunWord("DROP", [w] + rest, s, app);
    NumeralIsNotAWord(n);
    RunWord(w, rest, st, app);
    Ast.DecimalRoundTrip(n);
  }

  /** `DUP` copies the top of the stack. */
  lemma RunDup(rest: seq<string>, st: seq<Value>, v: Value, app: AppWord)
    ensures Run(["DUP"] + rest, st + [v], app) == Run(rest, st + [v] + [v], app)
  {
    var s := st + [v];
    assert Top(s) == v;
    RunWord("DUP", rest, s, app);
  }

  /** `SWAP` exchanges the two topmost values. */
  lemma RunSwap(rest: seq<string>, st: seq<Value>, a: Value, b: Value, app: AppWord)
    ensures Run(["SWAP"] + rest, st + [a] + [b], app) == Run(rest, st + [b] + [a], app)
  {
    var s := st + [a] + [b];
    assert Below(Below(s)) == st && Top(s) == b && Top(Below(s)) == a;
    assert st + [b, a] == st + [b] + [a];
    RunWord("SWAP", rest, s, app);
  }

  /** `FSTLC-MAKE-PAIR` pairs the two topmost values, the deeper one first. */
  lemma RunMakePair(rest: seq<string>, st: seq<Value>, a: Value, b: Value, app: AppWord)
    ensures Run(["FSTLC-MAKE-PAIR"] + rest, st + [a] + [b], app) == Run(rest, st + [VPair(a, b)], app)
  {
    var s := st + [a] + [b];
    assert Below(Below(s)) == st && Top(s) == b && Top(Below(s)) == a;
    RunWord("FSTLC-MAKE-PAIR", rest, s, app);
  }

  /** The pair case of `ForthComputesDenotation`: `DUP l SWAP r MAKE-PAIR`. */
  lemma {:induction false} ForthComputesPair(
    l: StaticCombinator, r: StaticCombinator, rest: seq<string>, st: seq<Value>, v: Value, app: AppWord)
    requires LamFree(l) && LamFree(r)
    ensures Run(ToForth(Pair(l, r)) + rest, st + [v], app) ==
      match Denote(Pair(l, r), v, app)
      case None => None
      case Some(w) => Run(rest, st + [w], app)
    decreases Pair(l, r), 0
  {
    var afterR := ["FSTLC-MAKE-PAIR"] + rest;
    var afterL := ["SWAP"] + (ToForth(r) + afterR);
    PairWords(l, r, rest);
    RunDup(ToForth(l) + afterL, st, v, app);
    ForthComputesDenotation(l, afterL, st + [v], v, app);
    match Denote(l, v, app) {
      case None =>
      case Some(a) =>
        RunSwap(ToForth(r) + afterR, st, v, a, app);
        ForthComputesDenotation(r, afterR, st + [a], v, app);
        match Denote(r, v, app) {
          case None =>
          case Some(b) =>
            RunMakePair(rest, st, a, b, app);
        }
    }
  }

  /** The words of a pair, regrouped around its two operands. */
  lemma PairWords(l: StaticCombinator, r: StaticCombinator, rest: seq<string>)
    requires LamFree(l) && LamFree(r)
    ensures ToForth(Pair(l, r)) + rest ==
      ["DUP"] + (ToForth(l) + (["SWAP"] + (ToForth(r) + (["FSTLC-MAKE-PAIR"] + rest))))
  {
    var a, b := ToForth(l), ToForth(r);
    assert ToForth(Pair(l, r)) == ["DUP"] + a + ["SWAP"] + b + ["FSTLC-MAKE-PAIR"];
  }
}
