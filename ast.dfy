/** The named surface syntax of the simply-typed lambda calculus, its types,
    and the text form their derived `Display` produces (src/ast.rs). The
    reader at the end of the module is not part of the compiler: it is the
    inverse that shows the printed form determines the type, and the
    expression when its names are well formed. */
module Ast {
  import opened Wrappers

  /** Rust's `u32`, the type of integer literals. */
  type u32 = n: nat | n < 0x1_0000_0000

  datatype Type = Arr(dom: Type, cod: Type) | Int

  datatype Expr =
    | App(fn: Expr, arg: Expr)
    | Lam(param: string, ty: Type, body: Expr)
    | Lit(n: u32)
    | Var(name: string)

  const Lambda: char := 'λ'

  /** The names an expression uses without binding them. */
  function FreeVars(e: Expr): set<string>
  {
    match e
    case App(l, r) => FreeVars(l) + FreeVars(r)
    case Lam(s, _, b) => FreeVars(b) - {s}
    case Lit(_) => {}
    case Var(s) => {s}
  }

  // ---------------------------------------------------------------------
  // Decimal numerals (`{}` on an unsigned integer)

  predicate IsDigit(c: char) { '0' <= c <= '9' }

  predicate AllDigits(s: string) { forall i :: 0 <= i < |s| ==> IsDigit(s[i]) }

  function DigitChar(d: nat): (c: char)
    requires d < 10
    ensures IsDigit(c)
  {
    ('0' as int + d) as char
  }

  /** The decimal digits of `n`, most significant first, without leading zeros. */
  function Decimal(n: nat): (s: string)
    ensures |s| > 0 && AllDigits(s)
    ensures s[0] == '0' <==> n == 0
    ensures n == 0 ==> s == "0"
  {
    if n < 10 then [DigitChar(n)] else Decimal(n / 10) + [DigitChar(n % 10)]
  }

  /** The number a string of decimal digits denotes. */
  function ParseDecimal(s: string): nat
    requires AllDigits(s)
  {
    if s == [] then 0
    else ParseDecimal(s[..|s| - 1]) * 10 + (s[|s| - 1] as int - '0' as int)
  }

  lemma {:induction false} DecimalRoundTrip(n: nat)
    ensures ParseDecimal(Decimal(n)) == n
  {
    if n >= 10 {
      var s := Decimal(n);
      assert s == Decimal(n / 10) + [DigitChar(n % 10)];
      assert s[..|s| - 1] == Decimal(n / 10);
      DecimalRoundTrip(n / 10);
    }
  }

  // ---------------------------------------------------------------------
  // Display

  /** `Int` prints as `int`, an arrow as `(<domain>) -> <codomain>`. */
  function ShowType(t: Type): string
  {
    match t
    case Arr(d, c) => "(" + ShowType(d) + ") -> " + ShowType(c)
    case Int => "int"
  }

  /** `App` prints as `(l r)`, `Lam` as `(λs:t. e)`, a literal as its decimal
      digits and a variable as its name verbatim. */
  function ShowExpr(e: Expr): string
  {
    match e
    case App(l, r) => "(" + ShowExpr(l) + " " + ShowExpr(r) + ")"
    case Lam(s, t, b) => "(" + [Lambda] + s + ":" + ShowType(t) + ". " + ShowExpr(b) + ")"
    case Lit(n) => Decimal(n)
    case Var(s) => s
  }

  // ---------------------------------------------------------------------
  // Reading the printed form back

  /** Characters that may occur in a name: anything but the delimiters the
      printer puts after a name (a space, `)` or `:`). */
  predicate NameChar(c: char) { c != ' ' && c != ')' && c != ':' }

  /** A name the printer cannot confuse with another construct: non-empty,
      made of name characters, and not starting like a literal, an
      application or a lambda. */
  predicate ValidName(s: string)
  {
    && |s| > 0
    && !IsDigit(s[0]) && s[0] != '(' && s[0] != Lambda
    && forall i :: 0 <= i < |s| ==> NameChar(s[i])
  }

  /** Every binder and variable of `e` has a valid name. */
  predicate WellNamed(e: Expr)
  {
    match e
    case App(l, r) => WellNamed(l) && WellNamed(r)
    case Lam(s, _, b) => ValidName(s) && WellNamed(b)
    case Lit(_) => true
    case Var(s) => ValidName(s)
  }

  predicate InClass(c: char, digits: bool)
  {
    if digits then IsDigit(c) else NameChar(c)
  }

  /** The length of the longest prefix of `s` made of digits (or of name
      characters). */
  function SpanLength(s: string, digits: bool): (n: nat)
    ensures n <= |s|
    ensures forall i :: 0 <= i < n ==> InClass(s[i], digits)
    ensures n == |s| || !InClass(s[n], digits)
  {
    if s == [] || !InClass(s[0], digits) then 0
    else
      var m := SpanLength(s[1..], digits);
      assert forall i :: 1 <= i <= m ==> s[i] == s[1..][i - 1];
      1 + m
  }

  /** Splits `s` into its longest prefix of digits (or of name characters)
      and the rest. */
  function Span(s: string, digits: bool): (r: (string, string))
    ensures r.0 + r.1 == s
    ensures forall i :: 0 <= i < |r.0| ==> InClass(r.0[i], digits)
    ensures r.1 == [] || !InClass(r.1[0], digits)
  {
    var n := SpanLength(s, digits);
    (s[..n], s[n..])
  }

  /** The split is unique: a run of class characters followed by a
      non-class character (or nothing) is exactly what `Span` returns. */
  lemma SpanOf(x: string, rest: string, digits: bool)
    requires forall i :: 0 <= i < |x| ==> InClass(x[i], digits)
    requires rest == [] || !InClass(rest[0], digits)
    ensures Span(x + rest, digits) == (x, rest)
  {
    var s := x + rest;
    var n := SpanLength(s, digits);
    assert forall i :: 0 <= i < |x| ==> s[i] == x[i];
    assert |x| < |s| ==> s[|x|] == rest[0];
    assert s[..n] == x && s[n..] == rest;
  }

  /** Reads a type from the front of `s`, returning it and what follows. */
  function ReadTypePrefix(s: string): (r: Option<(Type, string)>)
    ensures r.Some? ==> |r.value.1| < |s|
    decreases |s|
  {
    if |s| >= 3 && s[..3] == "int" then Some((Int, s[3..]))
    else if |s| > 0 && s[0] == '(' then
      match ReadTypePrefix(s[1..])
      case None => None
      case Some((d, r1)) =>
        if |r1| >= 5 && r1[..5] == ") -> " then
          match ReadTypePrefix(r1[5..])
          case None => None
          case Some((c, r2)) => Some((Arr(d, c), r2))
        else None
    else None
  }

  /** A printed type reads back as itself, whatever follows it. */
  lemma {:induction false} ReadShowType(t: Type, rest: string)
    ensures ReadTypePrefix(ShowType(t) + rest) == Some((t, rest))
  {
    match t
    case Int =>
      var s := ShowType(t) + rest;
      assert s[..3] == "int" && s[3..] == rest;
    case Arr(d, c) =>
      ReadShowType(d, ") -> " + (ShowType(c) + rest));
      ReadShowType(c, rest);
      ReadShowArr(d, c, rest);
  }

  /** The arrow step of `ReadShowType`, given the facts for both sides. */
  lemma ReadShowArr(d: Type, c: Type, rest: string)
    requires ReadTypePrefix(ShowType(d) + (") -> " + (ShowType(c) + rest)))
          == Some((d, ") -> " + (ShowType(c) + rest)))
    requires ReadTypePrefix(ShowType(c) + rest) == Some((c, rest))
    ensures ReadTypePrefix(ShowType(Arr(d, c)) + rest) == Some((Arr(d, c), rest))
  {
    var tail := ") -> " + (ShowType(c) + rest);
    var s := "(" + (ShowType(d) + tail);
    ShowArrShape(ShowType(d), ShowType(c), rest);
    assert s[1..] == ShowType(d) + tail;
    assert tail[..5] == ") -> " && tail[5..] == ShowType(c) + rest;
    ReadOpenArrow(s, d, tail, c, rest);
  }

  /** How `ReadTypePrefix` reads a string that opens with `(`. */
  lemma ReadOpenArrow(s: string, d: Type, tail: string, c: Type, rest: string)
    requires |s| > 0 && s[0] == '('
    requires ReadTypePrefix(s[1..]) == Some((d, tail))
    requires |tail| >= 5 && tail[..5] == ") -> "
    requires ReadTypePrefix(tail[5..]) == Some((c, rest))
    ensures ReadTypePrefix(s) == Some((Arr(d, c), rest))
  {
    if |s| >= 3 {
      assert s[..3] != "int" by { assert s[..3][0] != "int"[0]; }
    }
  }

  lemma ShowArrShape(d: string, c: string, rest: string)
    ensures "(" + d + ") -> " + c + rest == "(" + (d + (") -> " + (c + rest)))
  {
  }

  /** Different types print differently. */
  lemma ShowTypeInjective(a: Type, b: Type)
    requires ShowType(a) == ShowType(b)
    ensures a == b
  {
    ReadShowType(a, "");
    ReadShowType(b, "");
    assert ShowType(a) + "" == ShowType(a);
    assert ShowType(b) + "" == ShowType(b);
  }

  /** Reads an expression from the front of `s`, returning it and what
      follows. */
  function ReadExprPrefix(s: string): (r: Option<(Expr, string)>)
    ensures r.Some? ==> |r.value.1| < |s|
    decreases |s|, 1
  {
    if s == [] then None
    else if s[0] == '(' then
      if |s| >= 2 && s[1] == Lambda then ReadLamTail(s[2..]) else ReadAppTail(s[1..])
    else if IsDigit(s[0]) then
      var (ds, r1) := Span(s, true);
      var n := ParseDecimal(ds);
      if n < 0x1_0000_0000 then Some((Lit(n), r1)) else None
    else
      var (x, r1) := Span(s, false);
      if x == [] then None else Some((Var(x), r1))
  }

  /** Reads `l r)` (what follows the `(` of an application). */
  function ReadAppTail(s: string): (r: Option<(Expr, string)>)
    ensures r.Some? ==> |r.value.1| < |s|
    decreases |s| + 1, 0
  {
    match ReadExprPrefix(s)
    case None => None
    case Some((l, r1)) =>
      if r1 == [] || r1[0] != ' ' then None
      else
        match ReadExprPrefix(r1[1..])
        case None => None
        case Some((a, r2)) =>
          if r2 == [] || r2[0] != ')' then None
          else Some((App(l, a), r2[1..]))
  }

  /** Reads `s:t. e)` (what follows the `(λ` of a lambda). */
  function ReadLamTail(s: string): (r: Option<(Expr, string)>)
    ensures r.Some? ==> |r.value.1| < |s|
    decreases |s| + 1, 0
  {
    var (x, r1) := Span(s, false);
    if r1 == [] || r1[0] != ':' then None
    else
      match ReadTypePrefix(r1[1..])
      case None => None
      case Some((t, r2)) =>
        if |r2| < 2 || r2[..2] != ". " then None
        else
          match ReadExprPrefix(r2[2..])
          case None => None
          case Some((b, r3)) =>
            if r3 == [] || r3[0] != ')' then None
            else Some((Lam(x, t, b), r3[1..]))
  }

  /** What a printed well-named expression starts with. */
  lemma ShowExprStart(e: Expr)
    requires WellNamed(e)
    ensures |ShowExpr(e)| > 0 && ShowExpr(e)[0] != Lambda
    ensures e.App? || e.Lam? <==> ShowExpr(e)[0] == '('
    ensures e.Lit? <==> IsDigit(ShowExpr(e)[0])
  {
  }

  lemma {:induction false} ReadShowExpr(e: Expr, rest: string)
    requires WellNamed(e)
    requires rest == [] || rest[0] == ' ' || rest[0] == ')'
    ensures ReadExprPrefix(ShowExpr(e) + rest) == Some((e, rest))
  {
    match e
    case Lit(n) =>
      SpanOf(Decimal(n), rest, true);
      DecimalRoundTrip(n);
    case Var(x) =>
      SpanOf(x, rest, false);
    case App(l, a) =>
      ReadShowExpr(l, " " + (ShowExpr(a) + (")" + rest)));
      ReadShowExpr(a, ")" + rest);
      ReadShowApp(l, a, rest);
    case Lam(x, t, b) =>
      ReadShowExpr(b, ")" + rest);
      ReadShowLam(x, t, b, rest);
  }

  /** The application step of `ReadShowExpr`, given the facts for the two
      operands. */
  lemma ReadShowApp(l: Expr, a: Expr, rest: string)
    requires WellNamed(l)
    requires ReadExprPrefix(ShowExpr(l) + (" " + (ShowExpr(a) + (")" + rest))))
          == Some((l, " " + (ShowExpr(a) + (")" + rest))))
    requires ReadExprPrefix(ShowExpr(a) + (")" + rest)) == Some((a, ")" + rest))
    ensures ReadExprPrefix(ShowExpr(App(l, a)) + rest) == Some((App(l, a), rest))
  {
    var u := ShowExpr(l) + (" " + (ShowExpr(a) + (")" + rest)));
    ReadAppTailOf(l, a, rest);
    ShowExprStart(l);
    ShowAppShape(ShowExpr(l), ShowExpr(a), rest);
    ReadOpenParen(u);
  }

  /** What follows `(` in a printed application reads back as that
      application. */
  lemma ReadAppTailOf(l: Expr, a: Expr, rest: string)
    requires ReadExprPrefix(ShowExpr(l) + (" " + (ShowExpr(a) + (")" + rest))))
          == Some((l, " " + (ShowExpr(a) + (")" + rest))))
    requires ReadExprPrefix(ShowExpr(a) + (")" + rest)) == Some((a, ")" + rest))
    ensures ReadAppTail(ShowExpr(l) + (" " + (ShowExpr(a) + (")" + rest))))
         == Some((App(l, a), rest))
  {
    var afterArg := ")" + rest;
    var afterFn := " " + (ShowExpr(a) + afterArg);
    assert afterFn[0] == ' ' && afterFn[1..] == ShowExpr(a) + afterArg;
    assert afterArg[0] == ')' && afterArg[1..] == rest;
  }

  /** An opening parenthesis not followed by `λ` starts an application. */
  lemma ReadOpenParen(u: string)
    requires u != [] && u[0] != Lambda
    ensures ReadExprPrefix("(" + u) == ReadAppTail(u)
  {
    assert ("(" + u)[1..] == u;
  }

  /** An opening parenthesis followed by `λ` starts a lambda. */
  lemma ReadOpenLambda(u: string)
    ensures ReadExprPrefix("(" + [Lambda] + u) == ReadLamTail(u)
  {
    assert ("(" + [Lambda] + u)[2..] == u;
  }

  /** The lambda step of `ReadShowExpr`, given the fact for the body. */
  lemma ReadShowLam(x: string, t: Type, b: Expr, rest: string)
    requires ValidName(x)
    requires ReadExprPrefix(ShowExpr(b) + (")" + rest)) == Some((b, ")" + rest))
    ensures ReadExprPrefix(ShowExpr(Lam(x, t, b)) + rest) == Some((Lam(x, t, b), rest))
  {
    var u := x + (":" + (ShowType(t) + (". " + (ShowExpr(b) + (")" + rest)))));
    ReadLamTailOf(x, t, b, rest);
    ShowLamShape(x, ShowType(t), ShowExpr(b), rest);
    ReadOpenLambda(u);
  }

  /** What follows `(λ` in a printed lambda reads back as that lambda. */
  lemma ReadLamTailOf(x: string, t: Type, b: Expr, rest: string)
    requires ValidName(x)
    requires ReadExprPrefix(ShowExpr(b) + (")" + rest)) == Some((b, ")" + rest))
    ensures ReadLamTail(x + (":" + (ShowType(t) + (". " + (ShowExpr(b) + (")" + rest))))))
         == Some((Lam(x, t, b), rest))
  {
    var afterBody := ")" + rest;
    var afterType := ". " + (ShowExpr(b) + afterBody);
    var afterName := ":" + (ShowType(t) + afterType);
    SpanOf(x, afterName, false);
    assert afterName[0] == ':';
    assert afterName[1..] == ShowType(t) + afterType;
    ReadShowType(t, afterType);
    assert afterType[..2] == ". ";
    assert afterType[2..] == ShowExpr(b) + afterBody;
    assert afterBody[0] == ')' && afterBody[1..] == rest;
  }

  /** Regrouping of the printed application `(l a)` followed by `rest`. */
  lemma ShowAppShape(l: string, a: string, rest: string)
    ensures "(" + l + " " + a + ")" + rest == "(" + (l + (" " + (a + (")" + rest))))
  {
  }

  /** Regrouping of the printed lambda `(λx:t. b)` followed by `rest`. */
  lemma ShowLamShape(x: string, t: string, b: string, rest: string)
    ensures "(" + [Lambda] + x + ":" + t + ". " + b + ")" + rest
         == "(" + [Lambda] + (x + (":" + (t + (". " + (b + (")" + rest))))))
  {
  }

  /** Different well-named expressions print differently. */
  lemma ShowExprInjective(a: Expr, b: Expr)
    requires WellNamed(a) && WellNamed(b)
    requires ShowExpr(a) == ShowExpr(b)
    ensures a == b
  {
    ReadShowExpr(a, "");
    ReadShowExpr(b, "");
    assert ShowExpr(a) + "" == ShowExpr(a);
    assert ShowExpr(b) + "" == ShowExpr(b);
  }
}
