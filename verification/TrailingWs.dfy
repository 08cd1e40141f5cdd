/** `trailing_ws` (engine/simplicio_compress.py): blanks before a line feed or at the end go. */
module TrailingWs {
  import opened Substitution
  import opened Text
  import opened Wrappers

  /** `[ \t]+(?=\r?\n)|[ \t]+\Z` */
  function TrailingLen(s: string): nat {
    var k := Span(IsBlank, s);
    if k == |s| || s[k] == '\n' || (s[k] == '\r' && k + 1 < |s| && s[k + 1] == '\n') then k else 0
  }

  function Erase(x: string): string { "" }

  function Strip(t: string): string {
    Sub(TrailingLen, Erase, t)
  }

  lemma StripShortens()
    ensures Shortens(TrailingLen, Erase)
  {
  }

  /** Blank, carriage return, blanks, line feed: taking the last blanks away puts the first one
      before a line end. */
  predicate UncoversBlank(s: string) {
    && |s| >= 3 && IsBlank(s[0]) && s[1] == '\r' && IsBlank(s[2])
    && var k := 2 + Span(IsBlank, s[2..]); k < |s| && s[k] == '\n'
  }

  predicate NeverUncovers(t: string) {
    t == "" || (!UncoversBlank(t) && NeverUncovers(t[1..]))
  }

  lemma {:induction false} StripHead(t: string)
    requires t != "" && !Matches(TrailingLen, t)
    ensures Strip(t) == [t[0]] + Strip(t[1..])
  {
  }

  lemma TailSpan(p: char -> bool, t: string)
    requires t != "" && p(t[0])
    ensures Span(p, t) == 1 + Span(p, t[1..])
  {
  }

  /** Blanks that are not at a line end are copied, and so is the character after them. */
  lemma {:induction false} KeptBlanks(t: string)
    requires t != "" && !Matches(TrailingLen, t)
    ensures var k := Span(IsBlank, t);
            k < |t| && Strip(t) == t[..k + 1] + Strip(t[k + 1..])
    decreases |t|
  {
    StripHead(t);
    if IsBlank(t[0]) {
      var k := Span(IsBlank, t);
      TailSpan(IsBlank, t);
      assert t[1..][k - 1] == t[k];
      KeptBlanks(t[1..]);
      assert t[1..][k..] == t[k + 1..];
      assert t[..k + 1] == [t[0]] + t[1..][..k];
    } else {
      assert t[..1] == [t[0]];
    }
  }

  lemma BlankSpan(b: string, rest: string)
    requires forall i | 0 <= i < |b| :: b[i] in " \t"
    requires rest != "" ==> rest[0] !in " \t"
    ensures Span(IsBlank, b + rest) == |b|
  {
    assert (b + rest)[..|b|] == b;
    SpanUnique(IsBlank, b + rest, |b|);
  }

  /** A run of spaces and tabs goes before a line feed, before "\r\n" and at the end; elsewhere it stays. */
  lemma {:induction false} BlanksAtEndGo(b: string, rest: string)
    requires b != "" && forall i | 0 <= i < |b| :: b[i] in " \t"
    requires rest != "" ==> rest[0] !in " \t"
    ensures Strip(b + rest)
         == (if rest == "" || rest[0] == '\n' || "\r\n" <= rest then "" else b) + Strip(rest)
  {
    var t := b + rest;
    BlankSpan(b, rest);
    assert t[|b|..] == rest;
    if rest == "" || rest[0] == '\n' || "\r\n" <= rest {
      assert TrailingLen(t) == |b|;
      assert "" + Strip(rest) == Strip(rest);
    } else {
      KeptBlanks(t);
      StripHead(rest);
      assert t[..|b| + 1] == b + [rest[0]] && t[|b| + 1..] == rest[1..];
      Regroup(b, [rest[0]], Strip(rest[1..]));
    }
  }

  /** Every other character stays. */
  lemma OthersStay(c: char, rest: string)
    requires c !in " \t"
    ensures Strip([c] + rest) == [c] + Strip(rest) && Strip("") == ""
  {
    var t := [c] + rest;
    assert t[0] == c && t[1..] == rest;
    SpanUnique(IsBlank, t, 0);
  }

  /** When does the output start with a line feed? */
  lemma StripStartsWithNewline(t: string)
    ensures Strip(t) != "" && Strip(t)[0] == '\n' <==> BlanksThenNewline(t)
    decreases |t|
  {
    if t == "" {
    } else if Matches(TrailingLen, t) {
      var k := Span(IsBlank, t);
      if k < |t| {
        assert t[k..][0] == t[k] && !IsBlank(t[k..][0]);
        StripHead(t[k..]);
        assert Strip(t) == Strip(t[k..]);
      } else {
        assert t[k..] == "" && Strip(t) == Strip("") == "";
      }
    } else {
      KeptBlanks(t);
    }
  }

  /** Nothing is uncovered inside a run of blanks that goes. */
  lemma {:induction false} RunNeverUncovers(t: string)
    requires t != "" && Matches(TrailingLen, t)
    ensures NeverUncovers(t) <==> NeverUncovers(t[Span(IsBlank, t)..])
    decreases |t|
  {
    var k := Span(IsBlank, t);
    TailSpan(IsBlank, t);
    if k > 1 {
      assert t[..k][1] == t[1] && IsBlank(t[1]);
      assert k < |t| ==> t[1..][k - 1] == t[k];
      assert k + 1 < |t| ==> t[1..][k] == t[k + 1];
      RunNeverUncovers(t[1..]);
      assert t[1..][k - 1..] == t[k..];
    } else {
      assert t[1..] == t[k..];
    }
  }

  predicate BlanksThenNewline(w: string) {
    var k := Span(IsBlank, w); k < |w| && w[k] == '\n'
  }

  lemma UncoversShape(u: string, w: string)
    requires |u| >= 2 && IsBlank(u[0]) && u[2..] == w
    requires w != "" ==> !(u[1] == '\r' && w[0] == '\n')
    ensures UncoversBlank(u) <==> u[1] == '\r' && BlanksThenNewline(w)
  {
    if w != "" {
      assert u[2] == w[0];
    }
    if BlanksThenNewline(w) {
      assert u[2 + Span(IsBlank, w)] == w[Span(IsBlank, w)];
    }
  }

  lemma MatchesShape(out: string, k: nat)
    requires 0 < k < |out| && All(IsBlank, out[..k]) && !IsBlank(out[k]) && out[k] != '\n'
    ensures Matches(TrailingLen, out) <==> out[k] == '\r' && k + 1 < |out| && out[k + 1] == '\n'
  {
    SpanUnique(IsBlank, out, k);
  }

  /** A kept blank is at a line end of the output exactly when the stripping uncovers it. */
  lemma HeadIsUncovered(t: string)
    requires t != "" && !Matches(TrailingLen, t) && IsBlank(t[0])
    ensures var k := Span(IsBlank, t);
            Matches(TrailingLen, Strip(t)) <==> UncoversBlank(t[k - 1..])
  {
    var k, out := Span(IsBlank, t), Strip(t);
    var w := t[k + 1..];
    KeptBlanks(t);
    assert out[..k] == t[..k] && out[k] == t[k] && out[k + 1..] == Strip(w);
    MatchesShape(out, k);
    StripStartsWithNewline(w);
    assert |out| == k + 1 + |Strip(w)|;
    assert Strip(w) != "" ==> Strip(w)[0] == out[k + 1];
    var u := t[k - 1..];
    assert u[0] == t[..k][k - 1] && u[1] == t[k] && u[2..] == w;
    assert w != "" ==> w[0] == t[k + 1];
    UncoversShape(u, w);
  }

  lemma {:induction false} UncoversLater(t: string, i: nat)
    requires NeverUncovers(t) && i < |t|
    ensures !UncoversBlank(t[i..])
  {
    if i > 0 {
      assert t[i..] == t[1..][i - 1..];
      UncoversLater(t[1..], i - 1);
    } else {
      assert t[0..] == t;
    }
  }

  lemma {:induction false} OutputIsStripped(t: string)
    ensures NoMatch(TrailingLen, Strip(t)) <==> NeverUncovers(t)
    decreases |t|
  {
    if t == "" {
    } else if Matches(TrailingLen, t) {
      RunNeverUncovers(t);
      OutputIsStripped(t[Span(IsBlank, t)..]);
    } else {
      var rest, out := t[1..], Strip(t);
      OutputIsStripped(rest);
      StripHead(t);
      assert out[1..] == Strip(rest);
      if !IsBlank(t[0]) {
        SpanUnique(IsBlank, out, 0);
      } else {
        var k := Span(IsBlank, t);
        HeadIsUncovered(t);
        if k == 1 {
          assert t[0..] == t;
        } else {
          assert t[..k][1] == t[1];
          assert t[k - 1..] == rest[k - 2..];
          if NeverUncovers(rest) {
            UncoversLater(rest, k - 2);
          }
        }
      }
    }
  }

  /** Main result: a second pass does nothing exactly on the texts that never have a blank, a
      carriage return, more blanks and a line feed in a row. */
  lemma StripIsIdempotentIff(t: string)
    ensures Strip(Strip(t)) == Strip(t) <==> NeverUncovers(t)
  {
    StripShortens();
    OutputIsStripped(t);
    SubChangesIffShorter(TrailingLen, Erase, Strip(t));
  }

  /** The claimed idempotence fails on a text of five characters. */
  lemma UncoveringWitness()
    ensures !NeverUncovers("a \r \n")
  {
    var t := "a \r \n";
    var u := t[1..];
    assert u == " \r \n";
    assert u[2..] == " \n";
    SpanUnique(IsBlank, u[2..], 1);
    assert UncoversBlank(u);
  }
}
