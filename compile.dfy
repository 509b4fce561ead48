/** The older direct-to-Forth pipeline (src/compile.rs): its own nameless
    terms with the builtins as constructors, its name removal, and the
    `compile` / `compile_call` pair that emits Forth chunks while keeping a
    stack-depth counter.

    The chunks' documented stack effects give a small machine (`Exec`),
    against which the depth counter is checked. */
module Compile {
  import opened Wrappers
  import Ast
  import opened Scopes
  import Nameless

  datatype NamelessExpr =
    | Plus
    | Minus
    | Times
    | Divide
    | Mod
    | Print
    | App(l: NamelessExpr, r: NamelessExpr)
    | Lam(body: NamelessExpr)
    | Lit(n: Ast.u32)
    | Var(index: nat)

  /** The constructor a builtin name stands for. */
  function Builtin(name: string): (b: Option<NamelessExpr>)
    ensures b.Some? <==> name in Nameless.Builtins
  {
    if name == "+" then Some(Plus)
    else if name == "-" then Some(Minus)
    else if name == "*" then Some(Times)
    else if name == "/" then Some(Divide)
    else if name == "mod" then Some(Mod)
    else if name == "print" then Some(Print)
    else None
  }

  /** Every index points at one of the `depth` enclosing binders. */
  predicate ScopedBelow(t: NamelessExpr, depth: nat)
  {
    match t
    case App(l, r) => ScopedBelow(l, depth) && ScopedBelow(r, depth)
    case Lam(b) => ScopedBelow(b, depth + 1)
    case Var(i) => i < depth
    case _ => true
  }

  /** `remove_names`: a builtin name is recognised before the scope is
      searched, so no binder can shadow it. */
  function RemoveNames(scope: seq<string>, e: Ast.Expr): (r: Result<NamelessExpr, string>)
    ensures r.Ok? ==> ScopedBelow(r.value, |scope|)
    decreases e
  {
    match e
    case App(l, a) =>
      var l' :- RemoveNames(scope, l);
      var a' :- RemoveNames(scope, a);
      Ok(App(l', a'))
    case Lam(s, _, b) =>
      var b' :- RemoveNames(scope + [s], b);
      Ok(Lam(b'))
    case Lit(n) => Ok(Lit(n))
    case Var(x) => ResolveName(scope, x)
  }

  /** The variable arm of `remove_names`: a builtin, else the innermost
      binder, else an error. */
  function ResolveName(scope: seq<string>, x: string): (r: Result<NamelessExpr, string>)
    ensures r.Ok? ==> ScopedBelow(r.value, |scope|)
  {
    match Builtin(x)
    case Some(b) => Ok(b)
    case None =>
      match LastIndexOf(scope, x)
      case Some(p) => Ok(Var(|scope| - p - 1))
      case None => Err("Not found: " + x)
  }

  /** `remove_names` with its `&mut Vec` scope, pushed and popped around a
      lambda body; binders pushed before an error stay on the scope. */
  method RemoveNamesInPlace(scope: Stack<string>, e: Ast.Expr) returns (r: Result<NamelessExpr, string>)
    modifies scope
    ensures r == RemoveNames(old(scope.items), e)
    ensures r.Ok? ==> scope.items == old(scope.items)
    ensures old(scope.items) <= scope.items
    decreases e
  {
    match e
    case App(l, a) =>
      var l' := RemoveNamesInPlace(scope, l);
      if l'.Err? {
        return Err(l'.error);
      }
      var a' := RemoveNamesInPlace(scope, a);
      if a'.Err? {
        return Err(a'.error);
      }
      r := Ok(App(l'.value, a'.value));
    case Lam(s, _, b) =>
      ghost var before := scope.items;
      scope.Push(s);
      var b' := RemoveNamesInPlace(scope, b);
      if b'.Err? {
        assert before <= before + [s] <= scope.items;
        return Err(b'.error);
      }
      var _ := scope.Pop();
      assert scope.items == before;
      r := Ok(Lam(b'.value));
    case Lit(n) =>
      r := Ok(Lit(n));
    case Var(x) =>
      var b := Builtin(x);
      if b.Some? {
        r := Ok(b.value);
      } else {
        var p := LastIndexOf(scope.items, x);
        if p.Some? {
          r := Ok(Var(|scope.items| - p.value - 1));
        } else {
          r := Err("Not found: " + x);
        }
      }
  }

  // ---------------------------------------------------------------------
  // How a name is resolved

  /** A builtin name means the builtin whatever the scope holds. */
  lemma BuiltinsAreNeverShadowed(scope: seq<string>, x: string)
    requires x in Nameless.Builtins
    ensures ResolveName(scope, x) == Ok(Builtin(x).value)
    ensures !ResolveName(scope, x).value.Var?
  {
  }

  /** Any other name becomes the index of its innermost binder, and is an
      error when no binder carries it. */
  lemma OtherNamesResolveInnermost(scope: seq<string>, x: string, i: nat)
    requires x !in Nameless.Builtins
    ensures ResolveName(scope, x) == Ok(Var(i)) <==>
      && i < |scope| && scope[|scope| - 1 - i] == x
      && forall j :: |scope| - 1 - i < j < |scope| ==> scope[j] != x
    ensures ResolveName(scope, x) == Err("Not found: " + x) <==> x !in scope
  {
    assert Builtin(x) == None;
    if i < |scope| {
      LastIndexIs(scope, x, |scope| - 1 - i);
    }
  }

  /** The term `src/nameless.rs` produces for the same input: builtins are
      global names there. */
  function Shared(t: NamelessExpr): (s: Nameless.NamelessExpr)
    ensures Nameless.NamesBuiltins(s)
  {
    match t
    case Plus => Nameless.Nam("+")
    case Minus => Nameless.Nam("-")
    case Times => Nameless.Nam("*")
    case Divide => Nameless.Nam("/")
    case Mod => Nameless.Nam("mod")
    case Print => Nameless.Nam("print")
    case App(l, r) => Nameless.App(Shared(l), Shared(r))
    case Lam(b) => Nameless.Lam(Shared(b))
    case Lit(n) => Nameless.Lit(n)
    case Var(i) => Nameless.Var(i)
  }

  /** No binder, in the scope or in the term, is named after a builtin. */
  predicate BindsNoBuiltin(e: Ast.Expr)
  {
    match e
    case App(l, r) => BindsNoBuiltin(l) && BindsNoBuiltin(r)
    case Lam(s, _, b) => s !in Nameless.Builtins && BindsNoBuiltin(b)
    case _ => true
  }

  /** While no binder is named after a builtin, the two name removals agree. */
  lemma {:induction false} AgreesWithNameless(scope: seq<string>, e: Ast.Expr)
    requires forall x :: x in scope ==> x !in Nameless.Builtins
    requires BindsNoBuiltin(e)
    ensures Nameless.RemoveNames(scope, e) ==
      match RemoveNames(scope, e)
      case Ok(t) => Ok(Shared(t))
      case Err(m) => Err(m)
    decreases e
  {
    match e
    case App(l, a) =>
      AgreesWithNameless(scope, l);
      AgreesWithNameless(scope, a);
    case Lam(s, _, b) =>
      AgreesWithNameless(scope + [s], b);
    case Lit(_) =>
    case Var(x) =>
      if x in Nameless.Builtins {
        assert LastIndexOf(scope, x).None?;
      } else {
        assert Builtin(x) == None;
      }
  }

  /** A binder named after a builtin is where they part: `λ+:int. +` is the
      identity under `src/nameless.rs` and a function ignoring its argument
      here. */
  lemma ShadowingBuiltinDisagrees()
    ensures RemoveNames([], Ast.Lam("+", Ast.Int, Ast.Var("+"))) == Ok(Lam(Plus))
    ensures Nameless.RemoveNames([], Ast.Lam("+", Ast.Int, Ast.Var("+"))) == Ok(Nameless.Lam(Nameless.Var(0)))
  {
    assert LastIndexOf(["+"], "+") == Some(0);
  }

  // ---------------------------------------------------------------------
  // Forth chunks

  /** One or more Forth words that run as one. */
  datatype Chunk =
    | PrintTop
    | Quoted(word: string)
    | Execute
    | Def(name: string)
    | EndDef
    | Push(n: Ast.u32)
    | Pick(index: nat)
    | Discard(count: nat)
    | ReadBlock(count: nat)
    | WriteBlock(count: nat)

  /** An entry of the hoisted-definitions list: name, body and depth. */
  type Hoisted = (string, seq<Chunk>, nat)

  /** The arms of `compile` that are implemented: a literal, a variable,
      or an application whose function `compile_call` accepts. */
  predicate Compilable(e: NamelessExpr)
  {
    match e
    case App(l, r) => Compilable(r) && Callable(l)
    case Lit(_) => true
    case Var(_) => true
    case _ => false
  }

  /** The arms of `compile_call` that are implemented: a builtin, or an
      application whose function is again callable. */
  predicate Callable(e: NamelessExpr)
  {
    match e
    case App(l, r) => Compilable(r) && Callable(l)
    case Lam(_) => false
    case Lit(_) => false
    case Var(_) => false
    case _ => true
  }

  predicate IsBinary(e: NamelessExpr)
  {
    e.Plus? || e.Minus? || e.Times? || e.Divide? || e.Mod?
  }

  /** The word a binary builtin quotes. */
  function OperatorWord(e: NamelessExpr): (w: string)
    requires IsBinary(e)
    ensures w in Nameless.Builtins && w != "print"
  {
    match e
    case Plus => "+"
    case Minus => "-"
    case Times => "*"
    case Divide => "/"
    case Mod => "mod"
  }

  /** How `compile` moves the depth counter. */
  function Delta(e: NamelessExpr): int
    requires Compilable(e)
  {
    match e
    case App(l, r) => Delta(r) + CallDelta(l)
    case Lit(_) => 1
    case Var(_) => 1
  }

  /** How `compile_call` moves the depth counter. */
  function CallDelta(e: NamelessExpr): int
    requires Callable(e)
  {
    match e
    case App(l, r) => Delta(r) + CallDelta(l)
    case Print => 0
    case _ => -1
  }

  /** The counter never has to go below zero (it is a `usize`): it is at
      least one whenever a binary builtin is called. */
  predicate DepthOk(e: NamelessExpr, depth: int)
    requires Compilable(e)
  {
    match e
    case App(l, r) => DepthOk(r, depth) && CallDepthOk(l, depth + Delta(r))
    case _ => true
  }

  predicate CallDepthOk(e: NamelessExpr, depth: int)
    requires Callable(e)
  {
    match e
    case App(l, r) => DepthOk(r, depth) && CallDepthOk(l, depth + Delta(r))
    case Print => true
    case _ => depth >= 1
  }

  /** The only chunks the compiler emits. */
  predicate Emittable(c: Chunk)
  {
    c.Push? || c.Pick? || c.Quoted? || c.PrintTop?
  }

  /** The chunks `compile` emits: the argument's code, then the function's. */
  function Code(e: NamelessExpr): (code: seq<Chunk>)
    requires Compilable(e)
    ensures forall i :: 0 <= i < |code| ==> Emittable(code[i])
  {
    match e
    case App(l, r) => Code(r) + CallCode(l)
    case Lit(n) => [Push(n)]
    case Var(i) => [Pick(i)]
  }

  /** The chunks `compile_call` emits: a binary builtin is only quoted. */
  function CallCode(e: NamelessExpr): (code: seq<Chunk>)
    requires Callable(e)
    ensures forall i :: 0 <= i < |code| ==> Emittable(code[i])
  {
    match e
    case App(l, r) => Code(r) + CallCode(l)
    case Print => [PrintTop]
    case _ => [Quoted(OperatorWord(e))]
  }

  // ---------------------------------------------------------------------
  // The counter and the hoisted list, updated in place

  class CompileState {
    var depth: nat
    var hoist: seq<Hoisted>

    constructor(depth: nat, hoist: seq<Hoisted>)
      ensures this.depth == depth && this.hoist == hoist
    {
      this.depth := depth;
      this.hoist := hoist;
    }

    /** `compile`: emits the chunks and moves the counter; the hoisted list
        is only passed along. */
    method Compile(e: NamelessExpr) returns (code: seq<Chunk>)
      requires Compilable(e) && DepthOk(e, depth)
      modifies this
      ensures code == Code(e)
      ensures depth == old(depth) + Delta(e)
      ensures hoist == old(hoist)
      decreases e, 1
    {
      match e
      case App(l, r) =>
        code := Compile(r);
        var rest := CompileCall(l);
        code := code + rest;
      case Lit(n) =>
        depth := depth + 1;
        code := [Push(n)];
      case Var(i) =>
        depth := depth + 1;
        code := [Pick(i)];
    }

    /** `compile_call`: a binary builtin takes one off the counter, `print`
        leaves it alone. */
    method CompileCall(e: NamelessExpr) returns (code: seq<Chunk>)
      requires Callable(e) && CallDepthOk(e, depth)
      modifies this
      ensures code == CallCode(e)
      ensures depth == old(depth) + CallDelta(e)
      ensures hoist == old(hoist)
      decreases e, 0
    {
      if e.App? {
        code := Compile(e.r);
        var rest := CompileCall(e.l);
        code := code + rest;
      } else if e.Print? {
        code := [PrintTop];
      } else {
        depth := depth - 1;
        code := [Quoted(OperatorWord(e))];
      }
    }
  }

  // ---------------------------------------------------------------------
  // The stack effects of the chunks

  /** A stack cell: a number, or the execution token of a word. */
  datatype Cell = Number | Token(word: string)

  predicate AllNumbers(st: seq<Cell>)
  {
    forall i :: 0 <= i < |st| ==> st[i].Number?
  }

  /** Executing a word: the binary builtins take two numbers and leave one. */
  function ExecuteWord(w: string, st: seq<Cell>): Option<seq<Cell>>
  {
    if w in Nameless.Builtins && w != "print" then
      if |st| < 2 || !st[|st| - 1].Number? || !st[|st| - 2].Number? then None
      else Some(st[..|st| - 2] + [Number])
    else None
  }

  /** One chunk on a stack (top last), following its documented effect;
      None on underflow, on a definition, or on a token that is not a word
      this model knows. */
  function Exec(c: Chunk, st: seq<Cell>): Option<seq<Cell>>
  {
    match c
    case PrintTop => if st == [] then None else Some(st)
    case Quoted(w) => Some(st + [Token(w)])
    case Execute =>
      if st == [] || !st[|st| - 1].Token? then None
      else ExecuteWord(st[|st| - 1].word, st[..|st| - 1])
    case Def(_) => None
    case EndDef => None
    case Push(_) => Some(st + [Number])
    case Pick(i) => if i < |st| then Some(st + [st[|st| - 1 - i]]) else None
    case Discard(u) => if u < |st| then Some(st[..|st| - (u + 1)]) else None
    case ReadBlock(u) => if st == [] then None else Some(st[..|st| - 1] + seq(u + 1, _ => Number))
    case WriteBlock(u) => if u < |st| then Some(st[..|st| - (u + 1)] + [Number]) else None
  }

  /** Runs chunks from first to last. */
  function Run(code: seq<Chunk>, st: seq<Cell>): Option<seq<Cell>>
    decreases |code|
  {
    if code == [] then Some(st)
    else
      match Exec(code[0], st)
      case None => None
      case Some(st') => Run(code[1..], st')
  }

  /** Running two pieces of code one after the other. */
  lemma {:induction false} RunAppend(a: seq<Chunk>, b: seq<Chunk>, st: seq<Cell>)
    ensures Run(a + b, st) ==
      match Run(a, st)
      case None => None
      case Some(st') => Run(b, st')
    decreases |a|
  {
    if a != [] {
      assert (a + b)[0] == a[0];
      assert (a + b)[1..] == a[1..] + b;
      match Exec(a[0], st) {
        case None =>
        case Some(st') => RunAppend(a[1..], b, st');
      }
    } else {
      assert a + b == b;
    }
  }

  /** The stack holds what the emitted code needs when it runs: two
      operands for a binary builtin, one for `print`, and the item a
      `Pick` reads. */
  predicate OperandsOk(e: NamelessExpr, height: int)
    requires Compilable(e)
  {
    match e
    case App(l, r) => OperandsOk(r, height) && CallOperandsOk(l, height + Delta(r))
    case Var(i) => i < height
    case Lit(_) => true
  }

  predicate CallOperandsOk(e: NamelessExpr, height: int)
    requires Callable(e)
  {
    match e
    case App(l, r) => OperandsOk(r, height) && CallOperandsOk(l, height + Delta(r))
    case Print => height >= 1
    case _ => height >= 2
  }

  /** Where the stack holds the operands, the counter is never short. */
  lemma {:induction false} OperandsOkGivesDepthOk(e: NamelessExpr, height: int)
    requires Compilable(e) && OperandsOk(e, height)
    ensures DepthOk(e, height)
    decreases e, 1
  {
    if e.App? {
      OperandsOkGivesDepthOk(e.r, height);
      CallOperandsOkGivesDepthOk(e.l, height + Delta(e.r));
    }
  }

  lemma {:induction false} CallOperandsOkGivesDepthOk(e: NamelessExpr, height: int)
    requires Callable(e) && CallOperandsOk(e, height)
    ensures CallDepthOk(e, height)
    decreases e, 0
  {
    if e.App? {
      OperandsOkGivesDepthOk(e.r, height);
      CallOperandsOkGivesDepthOk(e.l, height + Delta(e.r));
    }
  }

  // ---------------------------------------------------------------------
  // Corrected emission: a quoted builtin is executed

  /** `compile` with every quoted builtin followed by `Execute`. */
  function CodeExecuting(e: NamelessExpr): seq<Chunk>
    requires Compilable(e)
  {
    match e
    case App(l, r) => CodeExecuting(r) + CallCodeExecuting(l)
    case Lit(n) => [Push(n)]
    case Var(i) => [Pick(i)]
  }

  function CallCodeExecuting(e: NamelessExpr): seq<Chunk>
    requires Callable(e)
  {
    match e
    case App(l, r) => CodeExecuting(r) + CallCodeExecuting(l)
    case Print => [PrintTop]
    case _ => [Quoted(OperatorWord(e)), Execute]
  }

  /** With the quoted builtins executed, the counter is the height of the
      stack: run on a stack of numbers as high as the counter, the code
      succeeds and leaves a stack of numbers as high as the counter ends. */
  lemma {:induction false} CounterIsStackHeight(e: NamelessExpr, st: seq<Cell>)
    requires Compilable(e) && OperandsOk(e, |st|) && AllNumbers(st)
    ensures Run(CodeExecuting(e), st).Some?
    ensures |Run(CodeExecuting(e), st).value| == |st| + Delta(e)
    ensures AllNumbers(Run(CodeExecuting(e), st).value)
    decreases e, 1
  {
    match e
    case App(l, r) =>
      RunAppend(CodeExecuting(r), CallCodeExecuting(l), st);
      CounterIsStackHeight(r, st);
      CallCounterIsStackHeight(l, Run(CodeExecuting(r), st).value);
    case Lit(_) =>
      assert Run([], st + [Number]) == Some(st + [Number]);
    case Var(i) =>
      assert Run([], st + [st[|st| - 1 - i]]) == Some(st + [st[|st| - 1 - i]]);
  }

  lemma {:induction false} CallCounterIsStackHeight(e: NamelessExpr, st: seq<Cell>)
    requires Callable(e) && CallOperandsOk(e, |st|) && AllNumbers(st)
    ensures Run(CallCodeExecuting(e), st).Some?
    ensures |Run(CallCodeExecuting(e), st).value| == |st| + CallDelta(e)
    ensures AllNumbers(Run(CallCodeExecuting(e), st).value)
    decreases e, 0
  {
    if e.App? {
      RunAppend(CodeExecuting(e.r), CallCodeExecuting(e.l), st);
      CounterIsStackHeight(e.r, st);
      CallCounterIsStackHeight(e.l, Run(CodeExecuting(e.r), st).value);
    } else if e.Print? {
      assert Run([], st) == Some(st);
    } else {
      RunQuotedExecute(OperatorWord(e), st);
      assert AllNumbers(st[..|st| - 2] + [Number]);
    }
  }

  /** A quoted binary builtin, executed, replaces its two operands by one
      number. */
  lemma RunQuotedExecute(w: string, st: seq<Cell>)
    requires w in Nameless.Builtins && w != "print"
    requires |st| >= 2 && AllNumbers(st)
    ensures Run([Quoted(w), Execute], st) == Some(st[..|st| - 2] + [Number])
  {
    var st1 := st + [Token(w)];
    assert st1[..|st1| - 1] == st;
    var st2 := st[..|st| - 2] + [Number];
    assert Exec(Execute, st1) == Some(st2);
    assert Run([Execute], st1) == Run([], st2) == Some(st2);
    assert [Quoted(w), Execute][1..] == [Execute];
    assert Run([Quoted(w), Execute], st) == Run([Execute], st1);
  }

  /** As written, `+ 1 2` leaves the quoted `+` on top of both operands:
      three cells, where the counter says one. */
  lemma QuotedBuiltinIsNeverCalled()
    ensures var e := App(App(Plus, Lit(1)), Lit(2));
      && Compilable(e) && OperandsOk(e, 0) && Delta(e) == 1
      && Code(e) == [Push(2), Push(1), Quoted("+")]
      && Run(Code(e), []) == Some([Number, Number, Token("+")])
  {
    var e := App(App(Plus, Lit(1)), Lit(2));
    assert Code(e) == [Push(2)] + ([Push(1)] + [Quoted("+")]);
    RunPushPushQuote("+");
  }

  /** Two pushes and a quotation leave the quoted word on top of two
      numbers. */
  lemma RunPushPushQuote(w: string)
    ensures Run([Push(2), Push(1), Quoted(w)], []) == Some([Number, Number, Token(w)])
  {
    var code := [Push(2), Push(1), Quoted(w)];
    var end := [Number, Number, Token(w)];
    assert [Number, Number] + [Token(w)] == end;
    assert [Number] + [Number] == [Number, Number];
    assert code[1..] == [Push(1), Quoted(w)] && code[2..] == [Quoted(w)] && code[2..][1..] == [];
    assert Run(code[2..], [Number, Number]) == Run([], end) == Some(end);
    assert Exec(Push(1), [Number]) == Some([Number, Number]);
    assert Run(code[1..], [Number]) == Run(code[2..], [Number, Number]);
    assert [] + [Number] == [Number];
    assert Exec(Push(2), []) == Some([Number]);
    assert Run(code, []) == Run(code[1..], [Number]);
  }

  /** The corrected code for the same term leaves their sum alone. */
  lemma QuotedBuiltinExecuted()
    ensures var e := App(App(Plus, Lit(1)), Lit(2));
      && CodeExecuting(e) == [Push(2), Push(1), Quoted("+"), Execute]
      && Run(CodeExecuting(e), []) == Some([Number])
  {
    var e := App(App(Plus, Lit(1)), Lit(2));
    assert CodeExecuting(e) == [Push(2)] + ([Push(1)] + [Quoted("+"), Execute]);
    CounterIsStackHeight(e, []);
    assert Run(CodeExecuting(e), []).value == [Number];
  }
}
