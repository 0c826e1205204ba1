/** Repeating a function, and mapping one over a sequence. */
module Iteration {

  function Iterate<T>(f: T -> T, n: nat, x: T): T {
    if n == 0 then x else Iterate(f, n - 1, f(x))
  }

  lemma {:induction false} IterateSnoc<T>(f: T -> T, n: nat, x: T)
    ensures Iterate(f, n + 1, x) == f(Iterate(f, n, x))
  {
    if n > 0 {
      IterateSnoc(f, n - 1, f(x));
    }
  }

  lemma IterateStep<T>(f: T -> T, n: nat, x: T, next: T)
    requires f(x) == next
    ensures Iterate(f, n + 1, x) == Iterate(f, n, next)
  {
  }

  /** Once a fixed point is reached, every further pass stays there. */
  lemma {:induction false} FixedStays<T>(f: T -> T, n: nat, m: nat, x: T)
    requires n <= m && f(Iterate(f, n, x)) == Iterate(f, n, x)
    ensures Iterate(f, m, x) == Iterate(f, n, x)
    decreases m - n
  {
    if n < m {
      FixedStays(f, n, m - 1, x);
      IterateSnoc(f, m - 1, x);
    }
  }

  /** A relation that one step on either side keeps is kept by any number of steps. */
  lemma {:induction false} IterateSimulates<S, T>(f: S -> S, g: T -> T, related: (S, T) -> bool, n: nat, s: S, t: T)
    requires related(s, t)
    requires forall s', t' | related(s', t') :: related(f(s'), g(t'))
    ensures related(Iterate(f, n, s), Iterate(g, n, t))
  {
    if n > 0 {
      IterateSimulates(f, g, related, n - 1, f(s), g(t));
    }
  }

  function Fold<S, E>(step: (S, E) -> S, es: seq<E>, s: S): S
    decreases es
  {
    if es == [] then s else Fold(step, es[1..], step(s, es[0]))
  }

  /** The same where the steps on one side take arguments. */
  lemma {:induction false} FoldSimulates<S, E, T>
    (step: (S, E) -> S, f: T -> T, related: (S, T) -> bool, es: seq<E>, s: S, t: T)
    requires related(s, t)
    requires forall s', e, t' | related(s', t') :: related(step(s', e), f(t'))
    ensures related(Fold(step, es, s), Iterate(f, |es|, t))
    decreases es
  {
    if es != [] {
      FoldSimulates(step, f, related, es[1..], step(s, es[0]), f(t));
    }
  }

  function MapIndexed<A, B>(f: (A, nat) -> B, s: seq<A>, from: nat): (r: seq<B>)
    ensures |r| == |s|
    ensures forall i | 0 <= i < |s| :: r[i] == f(s[i], from + i)
  {
    if s == [] then [] else [f(s[0], from)] + MapIndexed(f, s[1..], from + 1)
  }
}
