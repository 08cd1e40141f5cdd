/**
  `long_token_elide` (engine/simplicio_compress_extra.py): a stretch of 201 or more characters
  without white space becomes a marker that tells its length.
 */
module LongToken {
  import opened Substitution
  import opened Text
  import opened Wrappers

  /** `\S{201,}` */
  function TokenLen(s: string): nat {
    if Span(NotSpace, s) >= 201 then Span(NotSpace, s) else 0
  }

  const BEFORE: string := "<token:"
  const AFTER: string := " chars elided>"

  function Marker(run: string): string {
    Numbered(BEFORE, |run|, AFTER)
  }

  function Elide(t: string): string {
    Sub(TokenLen, Marker, t)
  }

  lemma ElideShortens()
    ensures Shortens(TokenLen, Marker)
  {
    forall s | Matches(TokenLen, s) ensures |Marker(s[..TokenLen(s)])| < TokenLen(s) {
      MarkerLength(TokenLen(s));
    }
  }

  /** A marker has 21 characters besides the digits, and is shorter than the 201 or more. */
  lemma MarkerLength(n: nat)
    requires n >= 201
    ensures |Numbered(BEFORE, n, AFTER)| == 21 + |Dec(n)|
    ensures |Numbered(BEFORE, n, AFTER)| < n
  {
    ManyDigits(n);
  }

  lemma {:induction false} ManyDigits(n: nat)
    requires n >= 100
    ensures |Dec(n)| <= n / 50 + 1
  {
    if n >= 1000 {
      ManyDigits(n / 10);
    } else {
      DecimalLength(n, 3);
      assert Pow10(3) == 10 * Pow10(2) == 100 * Pow10(1) == 1000 * Pow10(0);
    }
  }

  // ---- tokens -----------------------------------------------------------------------------

  /** A text as alternating tokens (stretches without white space, perhaps empty) and single white
      space characters: the token at the head, and the rest from the white space on. */
  datatype Piece = Token(text: string) | Space(c: char)

  function Pieces(t: string): seq<Piece>
    decreases |t|
  {
    if t == "" then []
    else if IsSpace(t[0]) then [Space(t[0])] + Pieces(t[1..])
    else [Token(t[..Span(NotSpace, t)])] + Pieces(t[Span(NotSpace, t)..])
  }

  function Spell(ps: seq<Piece>): string {
    if ps == [] then "" else
      (match ps[0]
       case Token(x) => x
       case Space(c) => [c]) + Spell(ps[1..])
  }

  function ElidePiece(p: Piece): string {
    match p
    case Space(c) => [c]
    case Token(x) => if |x| >= 201 then Numbered(BEFORE, |x|, AFTER) else x
  }

  function ElidePieces(ps: seq<Piece>): string {
    if ps == [] then "" else ElidePiece(ps[0]) + ElidePieces(ps[1..])
  }

  lemma SpellFirst(p: Piece, ps: seq<Piece>)
    ensures Spell([p] + ps) == (if p.Token? then p.text else [p.c]) + Spell(ps)
  {
    assert ([p] + ps)[1..] == ps;
  }

  lemma {:induction false} SpellPieces(t: string)
    ensures Spell(Pieces(t)) == t
    decreases |t|
  {
    if t != "" {
      var n := if IsSpace(t[0]) then 1 else Span(NotSpace, t);
      SpellPieces(t[n..]);
      SpellFirst(if IsSpace(t[0]) then Space(t[0]) else Token(t[..n]), Pieces(t[n..]));
      Rejoin(t, n);
    }
  }

  lemma {:induction false} ShortTokenStays(t: string)
    requires Span(NotSpace, t) < 201
    ensures var n := Span(NotSpace, t); Elide(t) == t[..n] + Elide(t[n..])
  {
    var n := Span(NotSpace, t);
    if n > 0 {
      ShortTokenStays(t[1..]);
      assert t[1..][n - 1..] == t[n..];
      assert t[..n] == [t[0]] + t[1..][..n - 1];
    } else {
      assert t[0..] == t && t[..0] == "";
    }
  }

  /** Main result: exactly the tokens of 201 or more characters become markers, and nothing else
      changes. */
  lemma {:induction false} ElideActsOnTokens(t: string)
    ensures Spell(Pieces(t)) == t
    ensures Elide(t) == ElidePieces(Pieces(t))
    decreases |t|
  {
    SpellPieces(t);
    if t == "" {
    } else if IsSpace(t[0]) {
      assert Span(NotSpace, t) == 0;
      ElideActsOnTokens(t[1..]);
      assert Pieces(t)[1..] == Pieces(t[1..]);
    } else {
      var n := Span(NotSpace, t);
      ElideActsOnTokens(t[n..]);
      assert Pieces(t)[1..] == Pieces(t[n..]);
      if n < 201 {
        ShortTokenStays(t);
      }
    }
  }

  /** A token of 201 or more characters becomes its length, a shorter one stays, and so does white space. */
  lemma TokenIsCounted(x: string, c: char, rest: string)
    requires All(NotSpace, x) && IsSpace(c)
    ensures Elide(x + ([c] + rest))
         == (if |x| >= 201 then "<token:" + Dec(|x|) + " chars elided>" else x) + ([c] + Elide(rest))
    ensures Elide(x) == if |x| >= 201 then "<token:" + Dec(|x|) + " chars elided>" else x
  {
    var u := [c] + rest;
    assert u[0] == c && u[1..] == rest && Elide("") == "";
    SpanUnique(NotSpace, u, 0);
    assert Elide(u) == [c] + Elide(rest);
    TokenThen(x, u);
    TokenThen(x, "");
    assert x + "" == x;
  }

  lemma TokenThen(x: string, u: string)
    requires All(NotSpace, x) && (u != "" ==> IsSpace(u[0]))
    ensures Elide(x + u) == (if |x| >= 201 then Marker(x) else x) + Elide(u)
  {
    var t := x + u;
    assert t[..|x|] == x && t[|x|..] == u;
    SpanUnique(NotSpace, t, |x|);
    if |x| < 201 {
      ShortTokenStays(t);
    }
  }

  // ---- when a second pass does nothing ----------------------------------------------------

  lemma {:induction false} ShortHasNoToken(x: string)
    requires |x| <= 200
    ensures NoMatch(TokenLen, x)
  {
    if x != "" {
      ShortHasNoToken(x[1..]);
    }
  }

  /** White space separates tokens. */
  lemma {:induction false} NoTokenInAppend(a: string, w: string)
    requires w != "" ==> IsSpace(w[0])
    ensures NoMatch(TokenLen, a + w) <==> NoMatch(TokenLen, a) && NoMatch(TokenLen, w)
  {
    if a == "" {
      assert a + w == w;
    } else {
      var k := Span(NotSpace, a);
      assert (a + w)[..k] == a[..k];
      assert k < |a| ==> (a + w)[k] == a[k];
      SpanUnique(NotSpace, a + w, k);
      assert (a + w)[1..] == a[1..] + w;
      NoTokenInAppend(a[1..], w);
    }
  }

  lemma OneToken(a: string)
    requires All(NotSpace, a)
    ensures NoMatch(TokenLen, a) <==> |a| <= 200
  {
    assert a[..|a|] == a;
    SpanUnique(NotSpace, a, |a|);
    if |a| <= 200 {
      ShortHasNoToken(a);
    }
  }

  lemma MarkerHead(n: nat)
    ensures All(NotSpace, BEFORE + Dec(n)) && |BEFORE + Dec(n)| == 7 + |Dec(n)|
  {
    forall i | 0 <= i < |BEFORE + Dec(n)| ensures NotSpace((BEFORE + Dec(n))[i]) {
      assert i >= |BEFORE| ==> IsDigit(Dec(n)[i - |BEFORE|]);
    }
  }

  lemma MarkerTokens(n: nat)
    ensures NoMatch(TokenLen, Numbered(BEFORE, n, AFTER)) <==> n < Pow10(193)
  {
    MarkerHead(n);
    OneToken(BEFORE + Dec(n));
    ShortHasNoToken(AFTER);
    NoTokenInAppend(BEFORE + Dec(n), AFTER);
    DecimalLength(n, 193);
  }

  predicate TokensBelow(bound: nat, ps: seq<Piece>) {
    forall i | 0 <= i < |ps| && ps[i].Token? :: |ps[i].text| < bound
  }

  lemma TokensBelowFirst(bound: nat, p: Piece, ps: seq<Piece>)
    ensures TokensBelow(bound, [p] + ps) <==> (p.Token? ==> |p.text| < bound) && TokensBelow(bound, ps)
  {
    var all := [p] + ps;
    assert all[0] == p;
    assert forall i | 0 <= i < |ps| :: ps[i] == all[i + 1];
    assert forall i | 1 <= i < |all| :: all[i] == ps[i - 1];
  }

  function FirstLen(t: string): (n: nat)
    requires t != ""
    ensures 0 < n <= |t|
  {
    if IsSpace(t[0]) then 1 else Span(NotSpace, t)
  }

  lemma FirstPiece(t: string)
    requires t != ""
    ensures var n := FirstLen(t);
            && Pieces(t) == [if IsSpace(t[0]) then Space(t[0]) else Token(t[..n])] + Pieces(t[n..])
            && Elide(t) == ElidePiece(Pieces(t)[0]) + Elide(t[n..])
  {
    ElideActsOnTokens(t);
    ElideActsOnTokens(t[FirstLen(t)..]);
    assert Pieces(t)[1..] == Pieces(t[FirstLen(t)..]);
  }

  lemma SpaceFirst(c: char, w: string)
    requires IsSpace(c)
    ensures NoMatch(TokenLen, [c] + w) <==> NoMatch(TokenLen, w)
  {
    assert ([c] + w)[1..] == w;
  }

  lemma {:induction false} OutputTokens(t: string)
    ensures NoMatch(TokenLen, Elide(t)) <==> TokensBelow(Pow10(193), Pieces(t))
    ensures t != "" && IsSpace(t[0]) ==> Elide(t) != "" && Elide(t)[0] == t[0]
    decreases |t|
  {
    if t != "" {
      var n := FirstLen(t);
      var rest := t[n..];
      OutputTokens(rest);
      FirstPiece(t);
      TokensBelowFirst(Pow10(193), Pieces(t)[0], Pieces(rest));
      if IsSpace(t[0]) {
        SpaceFirst(t[0], Elide(rest));
      } else {
        NoTokenInAppend(ElidePiece(Token(t[..n])), Elide(rest));
        PieceTokens(t[..n]);
      }
    }
  }

  lemma PieceTokens(x: string)
    ensures NoMatch(TokenLen, ElidePiece(Token(x))) <==> |x| < Pow10(193)
  {
    if |x| >= 201 {
      MarkerTokens(|x|);
    } else {
      ShortHasNoToken(x);
      DecimalLength(|x|, 193);
      DecimalLength(|x|, 3);
      PowerGrows(3, 193);
      assert Pow10(3) == 10 * Pow10(2) == 100 * Pow10(1) == 1000 * Pow10(0);
    }
  }

  lemma {:induction false} PowerGrows(a: nat, b: nat)
    requires a <= b
    ensures Pow10(a) <= Pow10(b)
  {
    if a < b {
      PowerGrows(a, b - 1);
    }
  }

  /** Main result: a second pass does nothing exactly when every token is shorter than 10^193, as
      the longest piece of a marker is the seven characters of its head and the digits. */
  lemma ElideIsIdempotentIff(t: string)
    ensures Elide(Elide(t)) == Elide(t) <==> TokensBelow(Pow10(193), Pieces(t))
  {
    ElideShortens();
    OutputTokens(t);
    SubChangesIffShorter(TokenLen, Marker, Elide(t));
  }
}
