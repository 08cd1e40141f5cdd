/** `strip_ansi` (engine/simplicio_compress.py): terminal escape sequences go. */
module Ansi {
  import opened Substitution
  import opened Text
  import opened Wrappers

  const ESC: char := '\U{1B}'
  const BEL: char := '\U{07}'

  predicate IsParam(c: char) { '0' <= c <= '?' }

  predicate IsInter(c: char) { ' ' <= c <= '/' }

  predicate IsFinal(c: char) { '@' <= c <= '~' }

  predicate IsSimple(c: char) { '@' <= c <= 'Z' || '\\' <= c <= '_' }

  predicate InString(c: char) { c != BEL && c != ESC }

  /** `[0-?]*[ -/]*[@-~]` */
  function CsiLen(s: string): (n: nat)
    ensures n <= |s|
  {
    var p := Span(IsParam, s);
    var q := p + Span(IsInter, s[p..]);
    if q < |s| && IsFinal(s[q]) then q + 1 else 0
  }

  /** `[^\x07\x1b]*(?:\x07|\x1b\\)` */
  function OscLen(s: string): (n: nat)
    ensures n <= |s|
  {
    var k := Span(InString, s);
    if k < |s| && s[k] == BEL then k + 1
    else if k + 1 < |s| && s[k] == ESC && s[k + 1] == '\\' then k + 2
    else 0
  }

  /** The length of the escape sequence at the head of `s`; an unfinished "\e]" is a sequence of two. */
  function SequenceLen(s: string): (n: nat)
    ensures n <= |s|
  {
    if |s| < 2 || s[0] != ESC then 0
    else if s[1] == '[' then (if CsiLen(s[2..]) > 0 then 2 + CsiLen(s[2..]) else 0)
    else if s[1] == ']' && OscLen(s[2..]) > 0 then 2 + OscLen(s[2..])
    else if IsSimple(s[1]) then 2
    else 0
  }

  function Erase(x: string): string { "" }

  function StripAnsi(t: string): string {
    Sub(SequenceLen, Erase, t)
  }

  predicate NotEsc(c: char) { c != ESC }

  predicate EscFree(t: string) { All(NotEsc, t) }

  lemma EraseShortens()
    ensures Shortens(SequenceLen, Erase)
  {
  }

  /** The pass is never rejected when it changes a text, and does nothing without ESC. */
  lemma {:induction false} EscFreeStays(t: string)
    requires EscFree(t)
    ensures StripAnsi(t) == t
  {
    if t != "" {
      assert NotEsc(t[0]);
      assert forall i | 0 <= i < |t| - 1 :: t[1..][i] == t[i + 1];
      EscFreeStays(t[1..]);
    }
  }

  // ---- what it removes --------------------------------------------------------------------

  lemma SequenceGoes(t: string, n: nat, rest: string)
    requires 0 < n <= |t| && SequenceLen(t) == n && t[n..] == rest
    ensures StripAnsi(t) == StripAnsi(rest)
  {
    assert "" + StripAnsi(rest) == StripAnsi(rest);
  }

  lemma CsiLenIs(p: string, i: string, f: char, rest: string)
    requires All(IsParam, p) && All(IsInter, i) && IsFinal(f)
    ensures CsiLen(p + i + [f] + rest) == |p| + |i| + 1
  {
    var s := p + i + [f] + rest;
    assert s[..|p|] == p && s[|p|] == (if i == "" then f else i[0]);
    assert i != "" ==> IsInter(i[0]);
    SpanUnique(IsParam, s, |p|);
    var u := s[|p|..];
    assert u[..|i|] == i && u[|i|] == f;
    SpanUnique(IsInter, u, |i|);
  }

  /** Control sequences go: ESC "[", parameter bytes, intermediate bytes, a final byte. */
  lemma ControlSequenceGoes(p: string, i: string, f: char, rest: string)
    requires forall k | 0 <= k < |p| :: '0' <= p[k] <= '?'
    requires forall k | 0 <= k < |i| :: ' ' <= i[k] <= '/'
    requires '@' <= f <= '~'
    ensures StripAnsi("\U{1B}[" + (p + i + [f] + rest)) == StripAnsi(rest)
  {
    var u := p + i + [f] + rest;
    var t := "\U{1B}[" + u;
    assert t[0] == ESC && t[1] == '[' && t[2..] == u;
    CsiLenIs(p, i, f, rest);
    SequenceGoes(t, |p| + |i| + 3, rest);
  }

  /** Operating system commands go: ESC "]", anything but BEL and ESC, and BEL or ESC "\". */
  lemma CommandGoes(x: string, end: string, rest: string)
    requires forall k | 0 <= k < |x| :: x[k] != '\U{07}' && x[k] != '\U{1B}'
    requires end == "\U{07}" || end == "\U{1B}\\"
    ensures StripAnsi("\U{1B}]" + (x + end + rest)) == StripAnsi(rest)
  {
    var u := x + end + rest;
    var t := "\U{1B}]" + u;
    assert t[0] == ESC && t[1] == ']' && t[2..] == u;
    assert u[..|x|] == x && u[|x|] == end[0] && (|end| == 2 ==> u[|x| + 1] == end[1]);
    SpanUnique(InString, u, |x|);
    SequenceGoes(t, 2 + |x| + |end|, rest);
  }

  /** No BEL or ESC up to `k`, and there BEL or ESC "\". */
  predicate IsCommand(s: string, k: nat) {
    && k < |s| && (forall x | 0 <= x < k :: s[x] != '\U{07}' && s[x] != '\U{1B}')
    && (s[k] == '\U{07}' || (s[k] == '\U{1B}' && k + 1 < |s| && s[k + 1] == '\\'))
  }

  /** Of an unfinished command only ESC "]" goes. */
  lemma UnfinishedCommandGoes(rest: string)
    requires !exists k: nat :: IsCommand(rest, k)
    ensures StripAnsi("\U{1B}]" + rest) == StripAnsi(rest)
  {
    var t := "\U{1B}]" + rest;
    assert t[0] == ESC && t[1] == ']' && t[2..] == rest;
    var k := Span(InString, rest);
    assert forall j | 0 <= j < k :: rest[..k][j] == rest[j] && InString(rest[..k][j]);
    assert !IsCommand(rest, k);
    SequenceGoes(t, 2, rest);
  }

  /** The other escapes of two characters go. */
  lemma ShortEscapeGoes(c: char, rest: string)
    requires '@' <= c <= '_' && c != '[' && c != ']'
    ensures StripAnsi("\U{1B}" + ([c] + rest)) == StripAnsi(rest)
  {
    var t := "\U{1B}" + ([c] + rest);
    assert t[0] == ESC && t[1] == c && t[2..] == rest;
    SequenceGoes(t, 2, rest);
  }

  /** Parameter bytes up to `j`, intermediate bytes up to `k`, and a final byte. */
  predicate IsControl(s: string, j: nat, k: nat) {
    && j <= k < |s| && (forall x | 0 <= x < j :: '0' <= s[x] <= '?') && (forall x | j <= x < k :: ' ' <= s[x] <= '/')
    && '@' <= s[k] <= '~'
  }

  lemma ControlOf(s: string)
    requires CsiLen(s) > 0
    ensures exists j: nat, k: nat :: IsControl(s, j, k)
  {
    var p := Span(IsParam, s);
    var q := Span(IsInter, s[p..]);
    forall x | 0 <= x < p ensures '0' <= s[x] <= '?' {
      assert IsParam(s[..p][x]);
    }
    forall x | p <= x < p + q ensures ' ' <= s[x] <= '/' {
      assert IsInter(s[p..][..q][x - p]);
    }
    assert IsControl(s, p, p + q);
  }

  /** Everything else stays: every character but ESC, and an ESC that starts none of these. */
  lemma OthersStay(t: string)
    requires t != ""
    requires t[0] != '\U{1B}' || |t| == 1 || !('@' <= t[1] <= '_')
          || (t[1] == '[' && !exists j: nat, k: nat :: IsControl(t[2..], j, k))
    ensures StripAnsi(t) == [t[0]] + StripAnsi(t[1..])
  {
    if |t| > 1 && CsiLen(t[2..]) > 0 {
      ControlOf(t[2..]);
    }
  }

  // ---- when a second pass does nothing ----------------------------------------------------

  /** The text from the first character on that is kept. */
  function Skip(t: string): (u: string)
    ensures u != "" ==> !Matches(SequenceLen, u)
    ensures |u| <= |t|
    decreases |t|
  {
    if Matches(SequenceLen, t) then Skip(t[SequenceLen(t)..]) else t
  }

  /** What is kept of `t` starts with intermediate bytes, if any, and a final byte ... */
  predicate KeepsInters(t: string)
    decreases |t|
  {
    var u := Skip(t);
    u != "" && (if IsInter(u[0]) then KeepsInters(u[1..]) else IsFinal(u[0]))
  }

  /** ... or with parameter bytes before these. */
  predicate KeepsParams(t: string)
    decreases |t|
  {
    var u := Skip(t);
    u != "" && (if IsParam(u[0]) then KeepsParams(u[1..]) else KeepsInters(u))
  }

  /** Behind an ESC, what is kept of `t` completes an escape sequence. */
  predicate Completes(t: string) {
    var u := Skip(t);
    u != "" && (if u[0] == '[' then KeepsParams(u[1..]) else IsSimple(u[0]))
  }

  /** An ESC that is kept stands before what completes a sequence once the sequences between are gone. */
  predicate Splices(t: string)
    decreases |t|
  {
    var u := Skip(t);
    u != "" && ((u[0] == ESC && Completes(u[1..])) || Splices(u[1..]))
  }

  lemma {:induction false} StripSkips(t: string)
    ensures StripAnsi(t) == StripAnsi(Skip(t))
    ensures var u := Skip(t); if u == "" then StripAnsi(t) == ""
            else StripAnsi(t) == [u[0]] + StripAnsi(u[1..]) && StripAnsi(t)[1..] == StripAnsi(u[1..])
    decreases |t|
  {
    if Matches(SequenceLen, t) {
      StripSkips(t[SequenceLen(t)..]);
      assert "" + StripAnsi(t[SequenceLen(t)..]) == StripAnsi(t[SequenceLen(t)..]);
    }
  }

  predicate HasInters(s: string) {
    s != "" && (if IsInter(s[0]) then HasInters(s[1..]) else IsFinal(s[0]))
  }

  predicate HasParams(s: string) {
    s != "" && (if IsParam(s[0]) then HasParams(s[1..]) else HasInters(s))
  }

  lemma {:induction false} IntersAre(s: string)
    ensures var q := Span(IsInter, s); HasInters(s) <==> q < |s| && IsFinal(s[q])
  {
    if s != "" && IsInter(s[0]) {
      IntersAre(s[1..]);
    }
  }

  lemma {:induction false} ParamsAre(s: string)
    ensures HasParams(s) <==> CsiLen(s) > 0
  {
    if s != "" && IsParam(s[0]) {
      ParamsAre(s[1..]);
      var p := Span(IsParam, s);
      assert s[1..][p - 1..] == s[p..];
    } else {
      IntersAre(s);
      assert s[0..] == s;
    }
  }

  lemma {:induction false} KeptInters(t: string)
    ensures KeepsInters(t) <==> HasInters(StripAnsi(t))
    decreases |t|
  {
    StripSkips(t);
    var u := Skip(t);
    if u != "" {
      KeptInters(u[1..]);
    }
  }

  lemma {:induction false} KeptParams(t: string)
    ensures KeepsParams(t) <==> HasParams(StripAnsi(t))
    decreases |t|
  {
    StripSkips(t);
    var u := Skip(t);
    if u != "" {
      KeptParams(u[1..]);
      KeptInters(u);
    }
  }

  lemma CompletesIff(t: string)
    ensures Completes(t) <==> Matches(SequenceLen, [ESC] + StripAnsi(t))
  {
    var u, s := Skip(t), [ESC] + StripAnsi(t);
    StripSkips(t);
    if u != "" {
      assert s[1] == u[0] && s[2..] == StripAnsi(u[1..]);
      KeptParams(u[1..]);
      ParamsAre(StripAnsi(u[1..]));
    }
  }

  lemma {:induction false} OutputMatchesIff(t: string)
    ensures NoMatch(SequenceLen, StripAnsi(t)) <==> !Splices(t)
    decreases |t|
  {
    StripSkips(t);
    var u := Skip(t);
    if u != "" {
      OutputMatchesIff(u[1..]);
      CompletesIff(u[1..]);
    }
  }

  /** Main result: on every text a second pass does nothing exactly if no kept ESC comes before what completes
      a sequence once the sequences between are gone. */
  lemma StripIsIdempotentIff(t: string)
    ensures StripAnsi(StripAnsi(t)) == StripAnsi(t) <==> !Splices(t)
  {
    EraseShortens();
    OutputMatchesIff(t);
    SubChangesIffShorter(SequenceLen, Erase, StripAnsi(t));
  }

  /** ESC, a sequence, and the rest of another one: the two halves meet. */
  lemma SplicingWitness()
    ensures Splices([ESC] + [ESC, 'M'] + "[m")
  {
    var t := [ESC] + [ESC, 'M'] + "[m";
    var u := t[1..];
    assert t[0] == ESC && u[0] == ESC && u[1] == 'M' && u[2..] == "[m";
    assert Matches(SequenceLen, u) && SequenceLen(u) == 2;
    assert Skip(u) == Skip("[m") == "[m";
    assert "[m"[1..] == "m" && Skip("m") == "m" && KeepsInters("m");
    assert KeepsParams("m");
    assert Completes(u);
  }
}
