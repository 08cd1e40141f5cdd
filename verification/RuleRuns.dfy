/** `rule_runs` (engine/simplicio_compress.py): ten or more equal rule characters become eight. */
module RuleRuns {
  import opened Substitution
  import opened Text
  import opened Wrappers

  /** One of "=-_*#.~". */
  predicate IsRule(c: char) {
    c == '=' || c == '-' || c == '_' || c == '*' || c == '#' || c == '.' || c == '~'
  }

  /** The length of the run of equal characters at the head of `t`. */
  function RunLen(t: string): (n: nat)
    ensures n <= |t| && (t != "" ==> n > 0)
  {
    if t == "" then 0
    else if |t| > 1 && t[1] == t[0] then 1 + RunLen(t[1..])
    else 1
  }

  /** `(?P<c>[rule characters])(?P=c){9,}` */
  function RuleLen(t: string): nat {
    if t != "" && IsRule(t[0]) && RunLen(t) >= 10 then RunLen(t) else 0
  }

  function Eight(x: string): string {
    if x == "" then "" else Repeat(x[0], 8)
  }

  function Shorten(t: string): string {
    Sub(RuleLen, Eight, t)
  }

  lemma EightShortens()
    ensures Shortens(RuleLen, Eight)
  {
  }

  // ---- run lengths ------------------------------------------------------------------------

  /** A text as its maximal runs of equal characters. */
  function Runs(t: string): seq<(char, nat)> {
    if t == "" then [] else [(t[0], RunLen(t))] + Runs(t[RunLen(t)..])
  }

  function Spell(runs: seq<(char, nat)>): string {
    if runs == [] then "" else Repeat(runs[0].0, runs[0].1) + Spell(runs[1..])
  }

  function Clip(run: (char, nat)): (char, nat) {
    if IsRule(run.0) && run.1 >= 10 then (run.0, 8) else run
  }

  function ClipAll(runs: seq<(char, nat)>): seq<(char, nat)> {
    if runs == [] then [] else [Clip(runs[0])] + ClipAll(runs[1..])
  }

  lemma {:induction false} RunIsRepeat(t: string)
    requires t != ""
    ensures t[..RunLen(t)] == Repeat(t[0], RunLen(t))
    ensures RunLen(t) < |t| ==> t[RunLen(t)] != t[0]
  {
    if |t| > 1 && t[1] == t[0] {
      RunIsRepeat(t[1..]);
      assert t[..RunLen(t)] == [t[0]] + t[1..][..RunLen(t) - 1];
      assert RunLen(t) < |t| ==> t[RunLen(t)] == t[1..][RunLen(t) - 1];
    } else {
      assert t[..1] == [t[0]];
      assert Repeat(t[0], 1) == [t[0]] + Repeat(t[0], 0);
    }
  }

  lemma {:induction false} RunLenOfRepeat(c: char, n: nat, rest: string)
    requires n > 0 && (rest != "" ==> rest[0] != c)
    ensures RunLen(Repeat(c, n) + rest) == n
  {
    var t := Repeat(c, n) + rest;
    if n > 1 {
      assert t[1..] == Repeat(c, n - 1) + rest;
      RunLenOfRepeat(c, n - 1, rest);
    } else {
      assert t[1..] == rest;
    }
  }

  lemma SpellFirst(run: (char, nat), runs: seq<(char, nat)>)
    ensures Spell([run] + runs) == Repeat(run.0, run.1) + Spell(runs)
  {
    assert ([run] + runs)[1..] == runs;
  }

  lemma {:induction false} SpellRuns(t: string)
    ensures Spell(Runs(t)) == t
    decreases |t|
  {
    if t != "" {
      var n := RunLen(t);
      RunIsRepeat(t);
      SpellRuns(t[n..]);
      SpellFirst((t[0], n), Runs(t[n..]));
      Rejoin(t, n);
    }
  }

  /** A run that is not replaced is copied whole. */
  lemma {:induction false} RunIsCopied(t: string)
    requires t != "" && RuleLen(t) == 0
    ensures Shorten(t) == t[..RunLen(t)] + Shorten(t[RunLen(t)..])
  {
    var n := RunLen(t);
    if |t| > 1 && t[1] == t[0] {
      RunIsCopied(t[1..]);
      assert t[1..][n - 1..] == t[n..];
      assert t[..n] == [t[0]] + t[1..][..n - 1];
    } else {
      assert t[..1] == [t[0]];
    }
  }

  lemma ShortenRun(t: string)
    requires t != ""
    ensures var (c, n) := Clip((t[0], RunLen(t)));
            n > 0 && Shorten(t) == Repeat(c, n) + Shorten(t[RunLen(t)..])
  {
    RunIsRepeat(t);
    if RuleLen(t) == 0 {
      RunIsCopied(t);
    } else {
      assert t[..RunLen(t)][0] == t[0];
    }
  }

  /** A run of ten or more of the seven rule characters becomes eight of them; any other run stays. */
  lemma RunIsShortened(c: char, n: nat, rest: string)
    requires n > 0 && (rest != "" ==> rest[0] != c)
    ensures Shorten(Repeat(c, n) + rest) == Repeat(c, if n >= 10 && c in "=-_*#.~" then 8 else n) + Shorten(rest)
    ensures Shorten("") == ""
  {
    var t := Repeat(c, n) + rest;
    RunLenOfRepeat(c, n, rest);
    assert t[0] == c && t[n..] == rest;
    ShortenRun(t);
  }

  lemma ShortenKeepsHead(t: string)
    requires t != ""
    ensures Shorten(t) != "" && Shorten(t)[0] == t[0]
  {
    ShortenRun(t);
  }

  /** Main result: every maximal run of ten or more rule characters becomes a run of eight, and
      every other run is left alone. */
  lemma {:induction false} RunsAreClipped(t: string)
    ensures Runs(Shorten(t)) == ClipAll(Runs(t))
    decreases |t|
  {
    if t != "" {
      var n := RunLen(t);
      var rest := t[n..];
      var (c, k) := Clip((t[0], n));
      RunIsRepeat(t);
      ShortenRun(t);
      RunsAreClipped(rest);
      if rest != "" {
        ShortenKeepsHead(rest);
      }
      var out := Shorten(t);
      RunLenOfRepeat(c, k, Shorten(rest));
      assert out[0] == c && out[k..] == Shorten(rest);
      assert Runs(t)[1..] == Runs(rest);
    }
  }

  lemma {:induction false} ClipTwice(runs: seq<(char, nat)>)
    ensures ClipAll(ClipAll(runs)) == ClipAll(runs)
  {
    if runs != [] {
      ClipTwice(runs[1..]);
      assert ClipAll(runs)[1..] == ClipAll(runs[1..]);
    }
  }

  lemma ShortenIsIdempotent(t: string)
    ensures Shorten(Shorten(t)) == Shorten(t)
    ensures NoMatch(RuleLen, Shorten(t))
  {
    RunsAreClipped(t);
    RunsAreClipped(Shorten(t));
    ClipTwice(Runs(t));
    SpellRuns(Shorten(t));
    SpellRuns(Shorten(Shorten(t)));
    EightShortens();
    SubChangesIffShorter(RuleLen, Eight, Shorten(t));
  }
}
