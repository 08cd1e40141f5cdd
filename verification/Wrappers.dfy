/** Optional values, iteration and sequences. */
module Wrappers {
  datatype Option<+T> = None | Some(value: T)

  function Iterate<T>(f: T -> T, x: T, n: nat): T {
    if n == 0 then x else f(Iterate(f, x, n - 1))
  }

  lemma {:induction false} IterationKeeps<T(!new), U>(f: T -> T, u: T -> U, x: T, n: nat)
    requires forall y :: u(f(y)) == u(y)
    ensures u(Iterate(f, x, n)) == u(x)
  {
    if n > 0 {
      IterationKeeps(f, u, x, n - 1);
    }
  }

  predicate Distinct<T(==)>(s: seq<T>) {
    forall i, j | 0 <= i < j < |s| :: s[i] != s[j]
  }

  lemma Regroup<T>(a: seq<T>, b: seq<T>, c: seq<T>)
    ensures a + (b + c) == a + b + c
  {
  }

  lemma Rejoin<T>(s: seq<T>, n: nat)
    requires n <= |s|
    ensures s[..n] + s[n..] == s
  {
  }

  lemma RejoinAt<T>(s: seq<T>, n: nat)
    requires n < |s|
    ensures s[..n] + ([s[n]] + s[n + 1..]) == s
  {
  }

  /** Cutting twice. */
  lemma CutTwice<T>(s: seq<T>, m: nat, n: nat)
    requires m + n <= |s|
    ensures s[m..][n..] == s[m + n..] && s[..m + n] == s[..m] + s[m..][..n]
  {
  }
}
