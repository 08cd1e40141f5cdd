/**
  `re.sub`: the scanner that replaces matches from left to right. A pattern is given by the
  length of its match at the head of a text, 0 if there is none.
 */
module Substitution {
  import opened Text

  type Pattern = string -> nat

  predicate Matches(m: Pattern, t: string) {
    t != "" && 0 < m(t) <= |t|
  }

  function Sub(m: Pattern, r: string -> string, t: string): string
    decreases |t|
  {
    if t == "" then ""
    else if Matches(m, t) then r(t[..m(t)]) + Sub(m, r, t[m(t)..])
    else [t[0]] + Sub(m, r, t[1..])
  }

  /** The pattern matches nowhere in `t`. */
  predicate NoMatch(m: Pattern, t: string) {
    t == "" || (!Matches(m, t) && NoMatch(m, t[1..]))
  }

  lemma {:induction false} NoMatchAt(m: Pattern, t: string, i: nat)
    requires NoMatch(m, t) && i <= |t|
    ensures NoMatch(m, t[i..])
  {
    if i > 0 {
      assert t[1..][i - 1..] == t[i..];
      NoMatchAt(m, t[1..], i - 1);
    }
  }

  /** A pattern whose matches are longer than the text. */
  lemma {:induction false} TooShort(m: Pattern, n: nat, t: string)
    requires (forall s | Matches(m, s) :: |s| >= n) && |t| < n
    ensures NoMatch(m, t)
  {
    if t != "" {
      TooShort(m, n, t[1..]);
    }
  }

  /** Cutting the end off makes no match. */
  ghost predicate PrefixClosed(m: Pattern) {
    forall s, n: nat | n <= |s| :: Matches(m, s[..n]) ==> Matches(m, s)
  }

  lemma {:induction false} NoMatchInPrefix(m: Pattern, t: string, n: nat)
    requires PrefixClosed(m) && NoMatch(m, t) && n <= |t|
    ensures NoMatch(m, t[..n])
  {
    if n > 0 {
      assert t[..n][1..] == t[1..][..n - 1];
      NoMatchInPrefix(m, t[1..], n - 1);
    }
  }

  lemma NoMatchInPart(m: Pattern, t: string, i: nat, j: nat)
    requires PrefixClosed(m) && NoMatch(m, t) && i <= j <= |t|
    ensures NoMatch(m, t[i..j])
  {
    NoMatchAt(m, t, i);
    NoMatchInPrefix(m, t[i..], j - i);
    assert t[i..j] == t[i..][..j - i];
  }

  /** No match goes beyond the character `c` or starts there. */
  ghost predicate StoppedBy(m: Pattern, c: char) {
    && (forall a, w | a != "" :: Matches(m, a + ([c] + w)) ==> Matches(m, a))
    && forall w :: !Matches(m, [c] + w)
  }

  lemma {:induction false} NoMatchAcross(m: Pattern, c: char, a: string, w: string)
    requires StoppedBy(m, c) && NoMatch(m, a) && NoMatch(m, w)
    ensures NoMatch(m, a + ([c] + w))
  {
    if a == "" {
      assert a + ([c] + w) == [c] + w && ([c] + w)[1..] == w;
    } else {
      assert (a + ([c] + w))[1..] == a[1..] + ([c] + w);
      NoMatchAcross(m, c, a[1..], w);
    }
  }

  lemma {:induction false} SubOfNoMatch(m: Pattern, r: string -> string, t: string)
    requires NoMatch(m, t)
    ensures Sub(m, r, t) == t
  {
    if t != "" {
      SubOfNoMatch(m, r, t[1..]);
    }
  }

  /** Every match is replaced by something shorter. */
  ghost predicate Shortens(m: Pattern, r: string -> string) {
    forall s | Matches(m, s) :: |r(s[..m(s)])| < m(s)
  }

  lemma {:induction false} SubIsShorter(m: Pattern, r: string -> string, t: string)
    requires Shortens(m, r)
    ensures |Sub(m, r, t)| <= |t|
    ensures |Sub(m, r, t)| == |t| ==> NoMatch(m, t)
    decreases |t|
  {
    if t != "" {
      SubIsShorter(m, r, if Matches(m, t) then t[m(t)..] else t[1..]);
    }
  }

  /** A shortening substitution changes a text exactly when its pattern occurs, and then makes it
      strictly shorter: the shrink-only guard never rejects it. */
  lemma SubChangesIffShorter(m: Pattern, r: string -> string, t: string)
    requires Shortens(m, r)
    ensures Sub(m, r, t) == t <==> NoMatch(m, t)
    ensures Sub(m, r, t) != t <==> |Sub(m, r, t)| < |t|
  {
    SubIsShorter(m, r, t);
    if NoMatch(m, t) {
      SubOfNoMatch(m, r, t);
    }
  }

  /** A property of characters that the replacements have is kept. */
  lemma {:induction false} SubKeepsAll(m: Pattern, r: string -> string, p: char -> bool, t: string)
    requires All(p, t)
    requires forall s | Matches(m, s) && All(p, s) :: All(p, r(s[..m(s)]))
    ensures All(p, Sub(m, r, t))
    decreases |t|
  {
    if t != "" {
      SubKeepsAll(m, r, p, if Matches(m, t) then t[m(t)..] else t[1..]);
    }
  }
}
