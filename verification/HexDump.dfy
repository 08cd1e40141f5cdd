/** `hex_dump_fold` (engine/simplicio_compress.py): thirty-two or more hex pairs become a count. */
module HexDump {
  import opened Substitution
  import opened Text
  import opened Wrappers

  predicate IsHex(c: char) {
    IsDigit(c) || 'a' <= c <= 'f' || 'A' <= c <= 'F'
  }

  predicate IsPair(s: string) {
    |s| >= 2 && IsHex(s[0]) && IsHex(s[1])
  }

  /** How many times " XX" is repeated at the head of `s`. */
  function MorePairs(s: string): (n: nat)
    ensures 3 * n <= |s|
    decreases |s|
  {
    if |s| >= 3 && s[0] == ' ' && IsPair(s[1..]) then 1 + MorePairs(s[3..]) else 0
  }

  /** `(?:[0-9A-Fa-f]{2})(?: [0-9A-Fa-f]{2}){31,}` */
  function DumpLen(s: string): nat {
    if IsPair(s) && MorePairs(s[2..]) >= 31 then 2 + 3 * MorePairs(s[2..]) else 0
  }

  const BEFORE: string := "["
  const AFTER: string := " bytes hex elided]"

  function Marker(run: string): string {
    Numbered(BEFORE, (|run| + 1) / 3, AFTER)
  }

  function Fold(t: string): string {
    Sub(DumpLen, Marker, t)
  }

  /** The marker tells the number of pairs, and is shorter than they were. */
  lemma MarkerCounts(s: string)
    requires Matches(DumpLen, s)
    ensures Marker(s[..DumpLen(s)]) == Numbered(BEFORE, 1 + MorePairs(s[2..]), AFTER)
    ensures |Marker(s[..DumpLen(s)])| < DumpLen(s)
  {
    var n := 1 + MorePairs(s[2..]);
    assert (DumpLen(s) + 1) / 3 == n;
    DecimalIsShort(n);
  }

  lemma FoldShortens()
    ensures Shortens(DumpLen, Marker)
  {
    forall s | Matches(DumpLen, s) ensures |Marker(s[..DumpLen(s)])| < DumpLen(s) {
      MarkerCounts(s);
    }
  }

  // ---- what it does -----------------------------------------------------------------------

  /** `" ".join(ps)`, with a space in front. */
  function Spaced(ps: seq<string>): string {
    if ps == [] then "" else " " + ps[0] + Spaced(ps[1..])
  }

  lemma {:induction false} SpacedLength(ps: seq<string>)
    requires forall i | 0 <= i < |ps| :: |ps[i]| == 2
    ensures |Spaced(ps)| == 3 * |ps|
  {
    if ps != [] {
      SpacedLength(ps[1..]);
    }
  }

  /** One of "0123456789abcdefABCDEF". */
  predicate IsHexDigit(c: char) {
    '0' <= c <= '9' || 'a' <= c <= 'f' || 'A' <= c <= 'F'
  }

  predicate IsByte(p: string) {
    |p| == 2 && IsHexDigit(p[0]) && IsHexDigit(p[1])
  }

  /** `rest` goes on with a space and a byte. */
  predicate GoesOn(rest: string) {
    |rest| >= 3 && rest[0] == ' ' && IsHexDigit(rest[1]) && IsHexDigit(rest[2])
  }

  lemma MoreThan(p: string, u: string)
    requires IsByte(p)
    ensures MorePairs(" " + p + u) == 1 + MorePairs(u)
  {
    var t := " " + p + u;
    assert t[0] == ' ' && t[1..][0] == p[0] && t[1..][1] == p[1] && t[3..] == u;
  }

  lemma {:induction false} MorePairsOf(ps: seq<string>, rest: string)
    requires AreBytes(ps) && !GoesOn(rest)
    ensures MorePairs(Spaced(ps) + rest) == |ps|
  {
    if ps == [] {
      assert Spaced(ps) + rest == rest;
      assert |rest| >= 3 ==> rest[1..][0] == rest[1] && rest[1..][1] == rest[2];
    } else {
      MoreThan(ps[0], Spaced(ps[1..]) + rest);
      MorePairsOf(ps[1..], rest);
      Regroup(" " + ps[0], Spaced(ps[1..]), rest);
    }
  }

  predicate AreBytes(ps: seq<string>) {
    forall i | 0 <= i < |ps| :: IsByte(ps[i])
  }

  /** The pairs behind the first, and what follows them. */
  lemma PairsBehind(ps: seq<string>, u: string, rest: string)
    requires AreBytes(ps) && !GoesOn(rest) && u == Spaced(ps) + rest
    ensures MorePairs(u) == |ps| && 3 * |ps| <= |u| && u[3 * |ps|..] == rest
  {
    MorePairsOf(ps, rest);
    SpacedLength(ps);
    Behind(Spaced(ps), rest);
  }

  /** The marker of `n` pairs. */
  lemma MarkerReads(run: string, n: nat)
    requires |run| == 3 * n - 1
    ensures Marker(run) == "[" + Dec(n) + " bytes hex elided]"
  {
  }

  lemma DumpLenIs(p: string, u: string, t: string)
    requires IsByte(p) && t == p + u && MorePairs(u) >= 31
    ensures DumpLen(t) == 2 + 3 * MorePairs(u) <= |t| && t[DumpLen(t)..] == u[3 * MorePairs(u)..]
  {
    assert t[0] == p[0] && t[1] == p[1] && t[2..] == u;
  }

  lemma FoldAtDump(t: string, n: nat, rest: string)
    requires 0 < n == DumpLen(t) <= |t| && t[n..] == rest
    ensures Fold(t) == Marker(t[..n]) + Fold(rest)
  {
  }

  /** Thirty-two or more pairs of hex digits with single spaces between become their marker. */
  lemma DumpIsCounted(p: string, ps: seq<string>, rest: string, t: string) returns (run: string)
    requires IsByte(p) && AreBytes(ps) && !GoesOn(rest) && t == p + (Spaced(ps) + rest)
    requires |ps| >= 31
    ensures |run| == 3 * (1 + |ps|) - 1 && Fold(t) == Marker(run) + Fold(rest)
  {
    var u, n := Spaced(ps) + rest, 2 + 3 * |ps|;
    PairsBehind(ps, u, rest);
    DumpLenIs(p, u, t);
    FoldAtDump(t, n, rest);
    run := t[..n];
  }

  lemma Behind(a: string, b: string)
    ensures (a + b)[|a|..] == b
  {
  }

  /** The 95 characters of thirty-two pairs. */
  predicate IsDumpHead(t: string) {
    |t| >= 95 && forall i | 0 <= i < 95 :: if i % 3 == 2 then t[i] == ' ' else IsHexDigit(t[i])
  }

  /** A character at which no thirty-two pairs start stays. */
  lemma OthersStay(t: string)
    requires t != "" && !IsDumpHead(t)
    ensures Fold(t) == [t[0]] + Fold(t[1..]) && Fold("") == ""
  {
    if Matches(DumpLen, t) {
      DumpAlternates(t);
    }
  }

  lemma DumpAlternates(t: string)
    requires Matches(DumpLen, t)
    ensures IsDumpHead(t)
  {
    var u := t[2..];
    PairsAlternate(u, 31);
    forall i | 0 <= i < 95 ensures if i % 3 == 2 then t[i] == ' ' else IsHexDigit(t[i]) {
      if i >= 2 {
        assert t[i] == u[i - 2];
      }
    }
  }

  lemma {:induction false} PairsAlternate(s: string, n: nat)
    requires n <= MorePairs(s)
    ensures 3 * n <= |s| && forall i | 0 <= i < 3 * n :: if i % 3 == 0 then s[i] == ' ' else IsHex(s[i])
    decreases n
  {
    if n > 0 {
      PairsAlternate(s[3..], n - 1);
      forall i | 0 <= i < 3 * n ensures if i % 3 == 0 then s[i] == ' ' else IsHex(s[i]) {
        if i >= 3 {
          assert s[i] == s[3..][i - 3];
        } else {
          assert s[1..][0] == s[1] && s[1..][1] == s[2];
        }
      }
    }
  }

  // ---- idempotence ------------------------------------------------------------------------

  predicate IsHexOrSpace(c: char) {
    IsHex(c) || c == ' '
  }

  lemma {:induction false} PairsAreHex(s: string)
    ensures All(IsHexOrSpace, s[..3 * MorePairs(s)])
    decreases |s|
  {
    if MorePairs(s) > 0 {
      PairsAreHex(s[3..]);
      var n := 3 * MorePairs(s);
      forall i | 0 <= i < n ensures IsHexOrSpace(s[i]) {
        if i >= 3 {
          assert s[i] == s[3..][..n - 3][i - 3];
        } else {
          assert s[1..][0] == s[1] && s[1..][1] == s[2];
        }
      }
    }
  }

  lemma DumpIsHex(s: string)
    requires Matches(DumpLen, s)
    ensures DumpLen(s) >= 95 && forall i | 0 <= i < DumpLen(s) :: IsHexOrSpace(s[i])
    ensures s[2] == ' ' && s[5] == ' ' && IsHex(s[3]) && IsHex(s[4])
  {
    var u := s[2..];
    PairsAreHex(u);
    var n := DumpLen(s);
    forall i | 0 <= i < n ensures IsHexOrSpace(s[i]) {
      if i >= 2 {
        assert s[i] == u[..n - 2][i - 2];
      }
    }
    assert u[0] == s[2] && u[1..][0] == s[3] && u[1..][1] == s[4];
    assert MorePairs(u[3..]) > 0 && u[3..][0] == s[5];
  }

  /** Whether thirty-two pairs stand at the head is decided by 95 characters. */
  lemma {:induction false} PairsInPrefix(s: string, s': string, n: nat)
    requires 3 * n <= |s| && 3 * n <= |s'| && s[..3 * n] == s'[..3 * n]
    ensures MorePairs(s) >= n ==> MorePairs(s') >= n
  {
    if n > 0 && MorePairs(s) >= n {
      assert forall i | 0 <= i < 3 * n :: s[i] == s[..3 * n][i] == s'[i];
      assert s[1..][0] == s[1] && s[1..][1] == s[2] && s'[1..][0] == s'[1] && s'[1..][1] == s'[2];
      assert s[3..][..3 * (n - 1)] == s[..3 * n][3..] == s'[3..][..3 * (n - 1)];
      PairsInPrefix(s[3..], s'[3..], n - 1);
    }
  }

  lemma DumpInPrefix(s: string, s': string)
    requires Matches(DumpLen, s) && |s'| >= 95 && s[..95] == s'[..95]
    ensures Matches(DumpLen, s')
  {
    assert forall i | 0 <= i < 95 :: s[i] == s[..95][i] == s'[i];
    assert s[2..][..93] == s[..95][2..] == s'[2..][..93];
    PairsInPrefix(s[2..], s'[2..], 31);
  }

  lemma FoldStartsWithBracket(t: string)
    ensures Matches(DumpLen, t) ==> Fold(t) != "" && Fold(t)[0] == '['
  {
  }

  /** A stretch of hex digits and spaces at the head of the output was there before. */
  lemma {:induction false} HexPrefixWasThere(t: string, n: nat)
    requires n <= |Fold(t)| && forall i | 0 <= i < n :: IsHexOrSpace(Fold(t)[i])
    ensures n <= |t| && Fold(t)[..n] == t[..n]
    decreases |t|
  {
    if n > 0 {
      var out := Fold(t);
      FoldStartsWithBracket(t);
      assert out[1..] == Fold(t[1..]);
      assert out[..n] == [t[0]] + out[1..][..n - 1];
      HexPrefixWasThere(t[1..], n - 1);
      assert t[..n] == [t[0]] + t[1..][..n - 1];
    }
  }

  /** No dump starts inside a marker, whatever comes after it. */
  lemma MarkerIsNoDump(n: nat, i: nat, w: string)
    requires i < |Numbered(BEFORE, n, AFTER)|
    ensures !Matches(DumpLen, Numbered(BEFORE, n, AFTER)[i..] + w)
  {
    var m := Numbered(BEFORE, n, AFTER);
    var s := m[i..] + w;
    assert s[|m| - i - 1] == m[|m| - 1] == ']';
    assert i + 2 <= |Dec(n)| ==> s[2] == m[i + 2] == Dec(n)[i + 1] && IsDigit(s[2]);
    if Matches(DumpLen, s) {
      DumpIsHex(s);
    }
  }

  lemma TailOf(m: string, i: nat, w: string)
    requires i < |m|
    ensures (m[i..] + w)[1..] == m[i + 1..] + w
  {
  }

  lemma {:induction false} MarkerThenClean(n: nat, i: nat, w: string)
    requires i <= |Numbered(BEFORE, n, AFTER)| && NoMatch(DumpLen, w)
    ensures NoMatch(DumpLen, Numbered(BEFORE, n, AFTER)[i..] + w)
    decreases |Numbered(BEFORE, n, AFTER)| - i
  {
    var m := Numbered(BEFORE, n, AFTER);
    if i == |m| {
      assert m[i..] + w == w;
    } else {
      MarkerIsNoDump(n, i, w);
      MarkerThenClean(n, i + 1, w);
      TailOf(m, i, w);
    }
  }

  lemma {:induction false} OutputHasNoDump(t: string)
    ensures NoMatch(DumpLen, Fold(t))
    decreases |t|
  {
    if t == "" {
    } else if Matches(DumpLen, t) {
      var rest := t[DumpLen(t)..];
      OutputHasNoDump(rest);
      MarkerCounts(t);
      MarkerThenClean(1 + MorePairs(t[2..]), 0, Fold(rest));
      var m := Marker(t[..DumpLen(t)]);
      assert m[0..] == m;
    } else {
      var out := Fold(t);
      OutputHasNoDump(t[1..]);
      assert out[1..] == Fold(t[1..]);
      if Matches(DumpLen, out) {
        DumpIsHex(out);
        HexPrefixWasThere(t, 95);
        DumpInPrefix(out, t);
      }
    }
  }

  /** Main result: on every text a second pass does nothing. */
  lemma FoldIsIdempotent(t: string)
    ensures Fold(Fold(t)) == Fold(t)
  {
    OutputHasNoDump(t);
    SubOfNoMatch(DumpLen, Marker, Fold(t));
  }
}
