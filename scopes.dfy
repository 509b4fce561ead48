/** The binder stack shared by the type checker and both name removers: a
    `Vec` that is pushed on entering a binder and popped on leaving it, and
    the two searches the source runs over it (`iter().find` finds the first,
    outermost match, `iter().rposition` the last, innermost one). */
module Scopes {
  import opened Wrappers

  /** Index of the first (outermost) occurrence of `x` in `xs`. */
  function FirstIndexOf(xs: seq<string>, x: string): (r: Option<nat>)
    ensures r.Some? ==> r.value < |xs| && xs[r.value] == x
    ensures r.Some? ==> forall j :: 0 <= j < r.value ==> xs[j] != x
    ensures r.None? <==> x !in xs
  {
    if xs == [] then None
    else if xs[0] == x then Some(0)
    else match FirstIndexOf(xs[1..], x)
      case None => None
      case Some(i) => Some(i + 1)
  }

  /** Index of the last (innermost) occurrence of `x` in `xs`. */
  function LastIndexOf(xs: seq<string>, x: string): (r: Option<nat>)
    ensures r.Some? ==> r.value < |xs| && xs[r.value] == x
    ensures r.Some? ==> forall j :: r.value < j < |xs| ==> xs[j] != x
    ensures r.None? <==> x !in xs
  {
    if xs == [] then None
    else if xs[|xs| - 1] == x then Some(|xs| - 1)
    else LastIndexOf(xs[..|xs| - 1], x)
  }

  /** The last occurrence is at `k` exactly when `k` holds `x` and nothing
      after it does. */
  lemma LastIndexIs(xs: seq<string>, x: string, k: nat)
    ensures LastIndexOf(xs, x) == Some(k) <==>
      k < |xs| && xs[k] == x && forall j :: k < j < |xs| ==> xs[j] != x
  {
    var p := LastIndexOf(xs, x);
    if k < |xs| && xs[k] == x && forall j :: k < j < |xs| ==> xs[j] != x {
      assert p.Some?;
      assert p.value <= k;
    }
  }

  /** No name occurs twice. */
  predicate Distinct(xs: seq<string>)
  {
    forall i, j :: 0 <= i < j < |xs| ==> xs[i] != xs[j]
  }

  /** Without repeated names the two searches find the same entry. */
  lemma SearchesAgreeWhenDistinct(xs: seq<string>, x: string)
    requires Distinct(xs)
    ensures FirstIndexOf(xs, x) == LastIndexOf(xs, x)
  {
    var f := FirstIndexOf(xs, x);
    var l := LastIndexOf(xs, x);
    if f.Some? {
      assert l.Some?;
      assert !(f.value < l.value) && !(l.value < f.value);
    }
  }

  /** A scope stack updated in place; the innermost binder is the last item. */
  class Stack<T> {
    var items: seq<T>

    constructor ()
      ensures items == []
    {
      items := [];
    }

    method Push(x: T)
      modifies this
      ensures items == old(items) + [x]
    {
      items := items + [x];
    }

    /** Removes and returns the innermost item; an empty stack stays empty. */
    method Pop() returns (top: Option<T>)
      modifies this
      ensures old(items) == [] ==> top.None? && items == []
      ensures old(items) != [] ==> top == Some(old(items)[|old(items)| - 1])
      ensures old(items) != [] ==> items == old(items)[..|old(items)| - 1]
    {
      if items == [] {
        top := None;
      } else {
        top := Some(items[|items| - 1]);
        items := items[..|items| - 1];
      }
    }
  }
}
