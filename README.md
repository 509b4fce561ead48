# fstlc in Dafny

A model of the fstlc compiler core: a simply-typed lambda calculus with
`int` literals is type-checked, converted to de Bruijn indices, compiled to
Categorical Abstract Machine (CAM) combinators and from there to Forth words.
Combinators can also be evaluated by term rewriting. An older pipeline goes
straight from de Bruijn terms to Forth "chunks" while counting the stack
depth.

Modules, one per source file plus two that connect them:

- `Scopes` (scopes.dfy, models the scope handling of src/tyck.rs,
  src/nameless.rs and src/compile.rs): the scope `Vec` shared by the checker and both name
  removers. It is a `Stack` class that is pushed and popped in place. It also
  holds the two searches run over it, `iter().find` (outermost) and
  `iter().rposition` (innermost).
- `Ast` (ast.dfy, models src/ast.rs): `Expr`, `Type` and their derived `Display` text. A reader
  for that text proves that different types always print differently, and
  that different well-named expressions print differently. Names are not
  checked, so arbitrary names can collide (`Var("1")` prints like `Lit(1)`).
- `Tyck` (tyck.dfy, models src/tyck.rs): the checker, once as a function of the scope and once as
  a method over the in-place scope. A declarative typing relation shows it
  sound and complete.
- `Nameless` (nameless.dfy, models src/nameless.rs): `remove_names`, as a function and as a method over
  the in-place scope.
- `Cam` (cam.dfy, models src/cam/mod.rs): `to_combinator` and `to_forth`.
  The combinators mean what their doc comments say (`Fst(x, y) = x`,
  `<x,y>z = (xz,yz)`, ...). The emitted Forth words are given meanings
  assumed from those laws and from the words' names, since the prelude that
  defines them is not part of this model. Under those meanings, `to_forth`
  is proved to compute the combinators' meaning.
- `CamEval` (cam_eval.dfy, models src/cam/eval.rs): `eval_step`, the `eval` loop, and the lift from
  static combinators. A term that `eval_step` leaves unchanged is exactly a
  term with no redex.
- `Compile` (compile.dfy, models src/compile.rs): its own nameless terms with builtin constructors,
  its name removal, and `compile` / `compile_call`. These are methods of a
  `CompileState` object that holds the `&mut usize` depth counter and the
  `&mut Vec` hoist list. A machine built from the chunks' documented stack
  effects checks the counter.
- `Soundness` (soundness.dfy): how checking and name removal fit together.
- `Examples` (examples.dfy): the `const (id 42) 137` program from src/tests.rs, through
  every stage.

## Model

| member | source | states |
|---|---|---|
| Scopes.FirstIndexOf | src/tyck.rs:38-42 | A found index holds the name and no earlier entry does; the result is None exactly when the name is absent |
| Scopes.LastIndexOf | src/nameless.rs:41-44 | A found index holds the name and no later entry does; the result is None exactly when the name is absent |
| Scopes.LastIndexIs | src/nameless.rs:41-44 | The innermost search returns k if and only if entry k holds the name and no later entry does |
| Scopes.SearchesAgreeWhenDistinct | src/tyck.rs:38-42 | When no name repeats, `find` and `rposition` pick the same entry |
| Scopes.Stack.constructor | src/tyck.rs:7 | A new scope is empty |
| Scopes.Stack.Push | src/tyck.rs:32 | Pushing appends the binder as the innermost item |
| Scopes.Stack.Pop | src/tyck.rs:34 | Popping removes the innermost item and returns it; an empty scope stays empty |
| Ast.ShowType | src/ast.rs:27-33 | Definition: the derived `Display` text of a type. Ast.ReadShowType and Ast.ShowTypeInjective state its properties |
| Ast.ShowExpr | src/ast.rs:3-16 | Definition: the derived `Display` text of an expression. Ast.ReadShowExpr and Ast.ShowExprInjective state its properties |
| Ast.Decimal | src/ast.rs:11-12 | A literal prints as a non-empty run of digits that starts with `0` only for zero |
| Ast.DecimalRoundTrip | src/ast.rs:11-12 | Reading the printed digits gives back the number |
| Ast.ReadShowType | src/ast.rs:29-32 | A printed type reads back as itself, whatever text follows it |
| Ast.ShowTypeInjective | src/ast.rs:27-33 | Different types print differently |
| Ast.ReadShowExpr | src/ast.rs:3-16 | A printed expression with valid names reads back as itself, when followed by nothing, a space or `)` |
| Ast.ShowExprInjective | src/ast.rs:3-16 | Different expressions with valid names print differently |
| Tyck.Check | src/tyck.rs:12-44 | The in-place checker returns the checker function's result on the entry scope. On success the scope is as it was. On an error the entry scope is still a prefix of it, because the binders pushed on the way down are not popped |
| Tyck.TypeCheck | src/tyck.rs:6-9 | Checking starts from the empty scope |
| Tyck.TypeOfSound | src/tyck.rs:12-44 | A returned type is a type of the expression under the declarative rules |
| Tyck.TypeOfComplete | src/tyck.rs:12-44 | Every declarative type is the returned one, so types are unique and none is missed |
| Tyck.TypeOfFailsIffUntypable | src/tyck.rs:12-44 | Checking fails exactly on expressions that have no type |
| Tyck.OutermostBindingWins | src/tyck.rs:38-42 | A variable takes the type of the first (outermost) binder with its name, whatever binders follow |
| Tyck.AppErrors | src/tyck.rs:17-29 | An `int` in function position gives `Not a function: <l>`; a domain that differs from the argument's type gives the mismatch error |
| Tyck.ErrorsPropagateLeftFirst | src/tyck.rs:15-16 | The function's error comes first, then the argument's, before any arrow check |
| Tyck.TypedNamesAreBound | src/tyck.rs:38-42 | Every free name of a well-typed expression is bound by the scope |
| Tyck.Lookup | src/tyck.rs:38-42 | Definition: the type of the first entry with the name, as `iter().find` gives it. Its behaviour is stated by Tyck.OutermostBindingWins and Scopes.FirstIndexOf |
| Tyck.TyckError.Message | src/tyck.rs:22-42 | Definition: the three error messages the checker formats. Tyck.AppErrors and Examples.NumberIsNotAFunction state them |
| Tyck.TypeOf | src/tyck.rs:12-44 | Definition: the checker as a function of the scope. Tyck.TypeOfSound, Tyck.TypeOfComplete and Tyck.TypeOfFailsIffUntypable tie it to the declarative rules; Tyck.Check is the in-place version |
| Tyck.TypeOfInnermost | src/tyck.rs:12-44 | Definition: the corrected checker, which looks variables up innermost-first. Soundness.InnermostTypingPreserved and Soundness.CheckersAgreeWithoutShadowing state its properties |
| Tyck.TypedFromEmptyIsClosed | src/tyck.rs:6-9 | Checking from the empty scope accepts only closed terms; every variable alone, builtin names included, is `Not found` |
| Nameless.RemoveNames | src/nameless.rs:27-54 | On success every index is below the number of enclosing binders and every global name is a builtin |
| Nameless.ResolveName | src/nameless.rs:40-52 | The same for a single variable |
| Nameless.RemoveNamesInPlace | src/nameless.rs:27-54 | The push/pop version returns the function's result. On success the scope is as it was; on an error the entry scope is a prefix of it |
| Nameless.VarResolvesInnermost | src/nameless.rs:41-44 | A name becomes `Var(i)` if and only if the binder i places from the top carries it and no nearer binder does |
| Nameless.VarFallsBackToBuiltins | src/nameless.rs:45-50 | A name becomes `Nam` if and only if no binder carries it and it is a builtin. It fails, with `Not found: <x>`, if and only if it is neither, so a binder shadows a builtin |
| Nameless.RemoveNamesSucceedsIff | src/nameless.rs:27-54 | Conversion succeeds if and only if every free name is bound or a builtin; a failure names one that is neither |
| Cam.ToCombinator | src/cam/mod.rs:74-92 | The combinator has no `Λ` if and only if the term has no lambda, so lambda-free terms reach `to_forth` |
| Cam.ToForth | src/cam/mod.rs:45-69 | Definition: the Forth words of a lambda-free combinator. Cam.ForthComputesDenotation states what they compute |
| Cam.Denote | src/cam/mod.rs:7-41 | Definition: the meaning the doc comments give each combinator, on environment values. Cam.CompiledVarReadsEnv and Cam.ForthComputesDenotation use it |
| Cam.CompiledVarReadsEnv | src/cam/mod.rs:86-90 | `Var(n)` compiles to code that reads the n-th most recent binding of a pair-built environment, and fails exactly when the environment is too shallow |
| Cam.ForthComputesDenotation | src/cam/mod.rs:45-69 | Under the word meanings assumed in Cam.Word, the emitted words replace the value on top of the stack by the combinator's meaning applied to it and leave the rest alone. They fail exactly when the meaning does |
| Cam.ForthComputesPair | src/cam/mod.rs:55-62 | The same for `<l, r>`: `DUP l SWAP r FSTLC-MAKE-PAIR` pairs the two results |
| Cam.ForthQuotesName | src/cam/mod.rs:63-65 | `DROP ' n` replaces the top by the name |
| Cam.ForthQuotesNum | src/cam/mod.rs:66 | `DROP <digits>` replaces the top by the number |
| CamEval.Reduce | src/cam/eval.rs:57-92 | Definition: the top-level rewrite of an application. Its properties are stated by CamEval.ReduceChangesIffRedex |
| CamEval.Step | src/cam/eval.rs:55-113 | Definition: one `eval_step`, the top-level rewrite or else a step inside. CamEval.FixpointIffNormal and CamEval.StepNeverWraps state its properties |
| CamEval.Lift | src/cam/eval.rs:130-143 | Definition: the `From` conversion from static to dynamic combinators. CamEval.LowerLift, CamEval.LiftLower and CamEval.LiftIsNormal state its properties |
| CamEval.ReduceChangesIffRedex | src/cam/eval.rs:57-91 | The top-level rewrite changes an application exactly when one of the six combinator laws applies; the fall-back arms rebuild what they matched |
| CamEval.StepNeverWraps | src/cam/eval.rs:55-113 | A step never yields a term that strictly contains its input |
| CamEval.NormalIsFixpoint | src/cam/eval.rs:94-111 | A term with no redex is left unchanged by a step |
| CamEval.FixpointIsNormal | src/cam/eval.rs:55-113 | A term a step leaves unchanged has no redex |
| CamEval.FixpointIffNormal | src/cam/eval.rs:119-125 | The stopping test of `eval` holds exactly on the normal forms |
| CamEval.EvalFuel | src/cam/eval.rs:116-127 | Whatever bounded evaluation returns is left unchanged by a step |
| CamEval.Eval | src/cam/eval.rs:116-127 | The loop that reassigns the term until a step changes nothing returns the bounded evaluation |
| CamEval.EvalFuelIsFirstFixpoint | src/cam/eval.rs:116-127 | Evaluation returns the term after the least number of steps that reaches a fixpoint when that number is below the fuel, and fails otherwise; that term is normal |
| CamEval.EvalFuelSound | src/cam/eval.rs:116-127 | A result is normal and is the first fixpoint of the step sequence |
| CamEval.EvalFuelMonotone | src/cam/eval.rs:116-127 | More fuel never changes a result |
| CamEval.EvalIdempotent | src/cam/eval.rs:116-127 | Evaluating a result again returns it at once |
| CamEval.LowerLift | src/cam/eval.rs:130-143 | Lifting a static combinator loses nothing: lowering gives it back |
| CamEval.LiftLower | src/cam/eval.rs:130-143 | The dynamic combinators that lower are exactly the lifted ones |
| CamEval.ApplyFreeIsFixpoint | src/cam/eval.rs:94-111 | A term with no application anywhere is normal, and a step returns it unchanged |
| CamEval.LiftIsNormal | src/cam/eval.rs:130-143 | A lifted combinator contains no application, so it is normal and a step leaves it alone |
| CamEval.CompiledVarProjects | src/cam/eval.rs:89-90 | A compiled `Var(n)`, applied to a normal environment deep enough for it, rewrites to its binding in n + 1 steps |
| Compile.Builtin | src/compile.rs:163-169 | Exactly the six names `+ - * / mod print` are builtin constructors |
| Compile.RemoveNames | src/compile.rs:150-177 | On success every index is below the number of enclosing binders |
| Compile.ResolveName | src/compile.rs:163-175 | The same for a single variable |
| Compile.RemoveNamesInPlace | src/compile.rs:150-177 | The push/pop version returns the function's result. On success the scope is as it was; on an error the entry scope is a prefix of it |
| Compile.BuiltinsAreNeverShadowed | src/compile.rs:163-169 | A builtin name is its constructor whatever the scope holds, and never an index |
| Compile.OtherNamesResolveInnermost | src/compile.rs:170-174 | Any other name is `Var(i)` if and only if binder i from the top is its innermost occurrence; it fails with `Not found: <x>` if and only if no binder carries it |
| Compile.AgreesWithNameless | src/compile.rs:150-177 | While no binder is named after a builtin, this name removal and the one in src/nameless.rs give the same term, or the same error |
| Compile.ShadowingBuiltinDisagrees | src/compile.rs:163-169 | `λ+:int. +` is `Lam(Plus)` here but the identity `Lam(Var 0)` in src/nameless.rs |
| Compile.OperatorWord | src/compile.rs:84-103 | A binary builtin quotes a builtin word other than `print` |
| Compile.Code | src/compile.rs:49-76 | `compile` emits only pushes, picks, quotations and prints |
| Compile.CallCode | src/compile.rs:78-114 | So does `compile_call` |
| Compile.CompileState.constructor | src/compile.rs:49-53 | The counter and the hoist list start as given |
| Compile.CompileState.Compile | src/compile.rs:49-76 | It returns the argument's code followed by the function's. The counter moves by one per literal or variable and down by one per binary builtin. The hoist list is unchanged |
| Compile.CompileState.CompileCall | src/compile.rs:78-114 | The same for `compile_call`: a binary builtin takes one off the counter, and `print` leaves it alone |
| Compile.Exec | src/compile.rs:8-47 | Definition: one chunk's documented stack effect, on cells that are numbers or execution tokens. Compile.CounterIsStackHeight and Compile.QuotedBuiltinIsNeverCalled use it |
| Compile.CallCodeExecuting | src/compile.rs:78-114 | Definition: the corrected `compile_call`, with every quoted builtin followed by `Execute`. Compile.CallCounterIsStackHeight states its property |
| Compile.OperandsOkGivesDepthOk | src/compile.rs:84-103 | If the stack holds the operands the code needs, the `usize` counter never goes below zero |
| Compile.CallOperandsOkGivesDepthOk | src/compile.rs:84-103 | The same for `compile_call` |
| Compile.CounterIsStackHeight | src/compile.rs:49-76 | When each quoted builtin is followed by `Execute`, the code runs without underflow on a stack of numbers. It leaves numbers, as many as the counter says |
| Compile.CallCounterIsStackHeight | src/compile.rs:78-114 | The same for `compile_call` |
| Compile.QuotedBuiltinIsNeverCalled | src/compile.rs:84-87 | As written, `+ 1 2` compiles to `2 1 [' +]`: the argument's code comes first. It leaves three cells with the token on top, while the counter says one |
| Compile.QuotedBuiltinExecuted | src/compile.rs:84-87 | With `Execute` added, the same term leaves one number |
| Soundness.TypedTermsConvert | src/nameless.rs:27-54 | A term the checker accepts converts under the same binders, and the result has no global name |
| Soundness.InnermostTypingPreserved | src/nameless.rs:41-44 | With innermost lookup, the checker's type is a type of the converted term under de Bruijn typing |
| Soundness.CheckersAgreeWithoutShadowing | src/tyck.rs:38-42 | When no binder reuses a name, outermost and innermost lookup give the same checker |
| Soundness.ShadowedBinderTypedWrongly | src/tyck.rs:38-42 | The checker types `λx:int. λx:(int) -> int. x` as `(int) -> ((int) -> int) -> int`. Name removal takes the inner `x`, so the converted term does not have that type |
| Examples.ConstIdPrints | src/tests.rs:39-42 | The program prints as `(((λx:int. (λy:int. x)) ((λx:int. x) 42)) 137)`, written in the pieces the printer joins |
| Examples.ConstIdTypes | src/tyck.rs:6-9 | The program has type `int` |
| Examples.ConstIdNameless | src/tests.rs:44-59 | The program converts to `App(App(Lam(Lam(Var 1)), App(Lam(Var 0), Lit 42)), Lit 137)` |
| Examples.ConstIdCombinator | src/tests.rs:60-88 | That term compiles to the combinator tree the test expects |
| Examples.TraceSteps | src/cam/eval.rs:55-113 | Each of the seven rewriting steps of the lifted program applied to `0` |
| Examples.TraceStart | src/cam/eval.rs:130-143 | The trace starts at the lifted combinator tree applied to `0` |
| Examples.ConstIdEvaluates | src/cam/eval.rs:116-127 | From every point of the trace, evaluation reaches `42` with one unit of fuel more than the steps that remain, and fails with one less |
| Examples.ConstIdRunsTo42 | src/cam/eval.rs:116-127 | The whole pipeline: convert, compile, lift, apply to `0` and evaluate gives `42` |
| Examples.NumberIsNotAFunction | src/tyck.rs:28 | `1 2` is rejected with `Not a function: 1` |

## Left out

- Parsing: the `FromStr` impls delegate to a generated grammar that is not part of this model. Terms are taken as given. The reader in `Ast` only serves to prove that printing is injective on types and on well-named expressions.
- src/main.rs is not part of this model: argument parsing, logging, file I/O and the `include_str!` prelude.
- src/lib.rs is not part of this model. It repeats the `Expr`/`Type` definitions and prints `λ` as `\`.
- The `Display` impls of the combinators, of the nameless terms and of `Chunk` are left out. They are debug output, and `Chunk::Lit` has no format.
- The `to_forth("test")` assertion of src/tests.rs is left out, because it uses a signature `to_forth` does not have.
- Lambda hoisting and name prefixes are left out: no shown code fills the hoist list, so it is only carried along.
- `Rc`/`Arc` sharing of types is left out; types are plain values.
- The behaviour of the prelude word `FSTLC-APP` is not part of this model. `Cam.Denote` and the Forth machine both take it as a parameter.
- Cam.ToForth: the `Λ` arm is `unimplemented!`, so lambda-freedom is a precondition.
- Compile.Code: the arms that are `unimplemented!` or `panic!` (builtins, lambdas and variables in the wrong position, a literal called as a function) are excluded by the preconditions `Compilable` and `Callable`.
- Compile.CompileState.Compile: `*depth -= 1` on a `usize` would underflow at zero. The precondition `DepthOk` rules that out instead of modelling a panic or wrap-around, and `+= 1` overflow is not modelled.
- Compile.Exec: the chunk machine fails on `Def`, on `EndDef`, and on executing a token that is not a binary builtin. Only the words the compiler emits are modelled.
- Cam.ToCombinator: there is no general proof that compilation agrees with the call-by-value meaning of the source program. Agreement is shown only for variables (Cam.CompiledVarReadsEnv, CamEval.CompiledVarProjects) and for the const/id program (Examples.ConstIdRunsTo42). No lemma relates a compiled `App` or `Lam` to evaluation in general.
- Ast.ShowExpr: names are arbitrary strings, so printing is injective only on well-named expressions. For example, `Var("(a b)")` prints like `App(Var("a"), Var("b"))`, and `Var("1")` prints like `Lit(1)`.
- CamEval.Eval: the source loops until a fixpoint with no bound. The model takes a fuel bound and returns None when the fuel runs out, so non-termination is not modelled.
- Tyck.TypeOf: the scope starts empty (src/tyck.rs:7), so builtins are unbound in the checker. A variable takes its OUTERMOST binder's type (`iter().find`, src/tyck.rs:40). The innermost lookup that name removal uses is modelled separately as Tyck.TypeOfInnermost.
- Numbers at run time (`Cam.Value`, `Compile.Cell`) carry no arithmetic. Only stack shape and pairing are modelled. So the operand order of `-`, `/` and `mod` in the chunks that `compile` emits (the argument's code is pushed before the function's) is not checked.
- Cam.Word: the meanings of `FSTLC-FST`, `FSTLC-SND` and `FSTLC-MAKE-PAIR`, which the prelude defines (src/main.rs:59), and of `DUP`, `SWAP` and `DROP` on pair values are assumptions. They are taken from the combinator laws in src/cam/mod.rs:7-41 and from the words' names, not from the source. `'` is modelled as pushing a reference to the next word of the list, as in interpretation state. src/tests.rs:90-91 places the words inside a colon definition, where the prelude's compile-time behaviour is not part of this model. Cam.ForthComputesDenotation holds under these meanings.

## Findings

| source | as written | input that shows it | evidently intended | confidence | as-written member | corrected member |
|---|---|---|---|---|---|---|
| src/tyck.rs:38-42 | A variable takes the type of the first (outermost) binder with its name, while src/nameless.rs:41-44 resolves it to the innermost one | `λx:int. λx:(int) -> int. x` is typed `(int) -> ((int) -> int) -> int`, but its body refers to the inner `x` | Innermost lookup, as in name removal; then the type carries over to the converted term | high; not executed | Tyck.TypeOf (Soundness.ShadowedBinderTypedWrongly) | Tyck.TypeOfInnermost (Soundness.InnermostTypingPreserved) |
| src/compile.rs:84-103 | A binary builtin emits only `Quoted(op)`, which pushes an execution token (`( -- xt )`), but the counter is decremented as if the operator had run | `+ 1 2` gives `2 1 [' +]`: three cells, with the counter at one | Follow the quotation with `Execute`, so the operator consumes two numbers and leaves one. This fixes the stack height only: `- 5 3` then runs `3 5 -`, which computes 3 − 5, and `/` and `mod` have their operands swapped in the same way. The value-free stack model cannot show this | medium; not executed | Compile.CallCode (Compile.QuotedBuiltinIsNeverCalled) | Compile.CallCodeExecuting (Compile.CounterIsStackHeight) |
