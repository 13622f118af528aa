/** Pieces of SQL text that a scan passes over without finding anything, wherever they stand. */
module DdlCalm {
  import opened Wrappers
  import opened Decimals
  import opened DdlScanner

  predicate AnyKeywordAt(text: string, i: nat, kws: seq<string>) {
    exists k :: 0 <= k < |kws| && KeywordAt(text, i, kws[k])
  }

  /** A scan from `i` comes to `j` outside of everything, and finds no comma, no closing parenthesis
      too many and none of the keywords outside of everything on the way. */
  predicate Calm(text: string, i: nat, mode: Mode, depth: nat, j: nat, kws: seq<string>)
    requires i <= j <= |text|
    decreases j - i
  {
    if i == j then mode.Plain? && depth == 0
    else
      var (mode', i', plain) := Step(text, i, mode);
      && i' <= j
      && (plain && depth == 0 ==> text[i] != ',' && text[i] != ')' && !AnyKeywordAt(text, i, kws))
      && Calm(text, i', mode', Depth(depth, plain, text[i]), j, kws)
  }

  /** A scan from `i` comes to `j` outside of everything, and finds no closing parenthesis too many. */
  predicate Balanced(text: string, i: nat, mode: Mode, depth: nat, j: nat)
    requires i <= j <= |text|
    decreases j - i
  {
    if i == j then mode.Plain? && depth == 0
    else
      var (mode', i', plain) := Step(text, i, mode);
      && i' <= j
      && (plain && depth == 0 ==> text[i] != ')')
      && Balanced(text, i', mode', Depth(depth, plain, text[i]), j)
  }

  predicate CalmPiece(t: string, kws: seq<string>) { Calm(t, 0, Plain, 0, |t|, kws) }

  predicate BalancedPiece(t: string) { Balanced(t, 0, Plain, 0, |t|) }

  // ----- what a scan makes of calm text

  lemma {:induction false} CalmThen(text: string, i: nat, mode: Mode, depth: nat, j: nat, k: nat, kws: seq<string>)
    requires i <= j <= k <= |text|
    requires Calm(text, i, mode, depth, j, kws) && Calm(text, j, Plain, 0, k, kws)
    ensures Calm(text, i, mode, depth, k, kws)
    decreases j - i
  {
    if i < j {
      var (mode', i', plain) := Step(text, i, mode);
      CalmThen(text, i', mode', Depth(depth, plain, text[i]), j, k, kws);
    }
  }

  lemma {:induction false} KeywordPasses(text: string, i: nat, mode: Mode, depth: nat, j: nat, kws: seq<string>,
                                         kw: string)
    requires i <= j <= |text| && Calm(text, i, mode, depth, j, kws) && kw in kws
    ensures Keyword(text, kw, i, mode, depth) == Keyword(text, kw, j, Plain, 0)
    decreases j - i
  {
    if i < j {
      var (mode', i', plain) := Step(text, i, mode);
      KeywordPasses(text, i', mode', Depth(depth, plain, text[i]), j, kws, kw);
    }
  }

  lemma {:induction false} CommasPass(text: string, i: nat, mode: Mode, depth: nat, j: nat, kws: seq<string>)
    requires i <= j <= |text| && Calm(text, i, mode, depth, j, kws)
    ensures Commas(text, i, mode, depth) == Commas(text, j, Plain, 0)
    decreases j - i
  {
    if i < j {
      var (mode', i', plain) := Step(text, i, mode);
      CommasPass(text, i', mode', Depth(depth, plain, text[i]), j, kws);
    }
  }

  lemma {:induction false} ClosesAt(text: string, i: nat, mode: Mode, depth: nat, j: nat)
    requires i <= j < |text| && Balanced(text, i, mode, depth, j) && text[j] == ')'
    ensures Closing(text, i, mode, depth + 1) == Some(j)
    decreases j - i
  {
    if i < j {
      var (mode', i', plain) := Step(text, i, mode);
      ClosesAt(text, i', mode', Depth(depth, plain, text[i]), j);
    }
  }

  /** Text in parentheses is calm, whatever keywords and commas it has. */
  lemma {:induction false} GroupCalm(text: string, i: nat, mode: Mode, depth: nat, j: nat, kws: seq<string>)
    requires i <= j < |text| && Balanced(text, i, mode, depth, j) && text[j] == ')'
    ensures Calm(text, i, mode, depth + 1, j + 1, kws)
    decreases j - i
  {
    if i < j {
      var (mode', i', plain) := Step(text, i, mode);
      GroupCalm(text, i', mode', Depth(depth, plain, text[i]), j, kws);
    } else {
      assert Step(text, i, Plain) == (Plain, i + 1, true);
      assert Calm(text, i + 1, Plain, 0, j + 1, kws);
    }
  }

  lemma {:induction false} CalmIsBalanced(text: string, i: nat, mode: Mode, depth: nat, j: nat, kws: seq<string>)
    requires i <= j <= |text| && Calm(text, i, mode, depth, j, kws)
    ensures Balanced(text, i, mode, depth, j)
    decreases j - i
  {
    if i < j {
      var (mode', i', plain) := Step(text, i, mode);
      CalmIsBalanced(text, i', mode', Depth(depth, plain, text[i]), j, kws);
    }
  }

  lemma {:induction false} BalancedThen(text: string, i: nat, mode: Mode, depth: nat, j: nat, k: nat)
    requires i <= j <= k <= |text| && Balanced(text, i, mode, depth, j) && Balanced(text, j, Plain, 0, k)
    ensures Balanced(text, i, mode, depth, k)
    decreases j - i
  {
    if i < j {
      var (mode', i', plain) := Step(text, i, mode);
      BalancedThen(text, i', mode', Depth(depth, plain, text[i]), j, k);
    }
  }

  // ----- pieces in their surroundings

  /** A character that is no part of a word and opens, closes or completes nothing. */
  predicate Neutral(c: char) {
    !IsIdentifierChar(c) && !IsQuote(c) && c != '-' && c != '*' && c != '/' && c != ']'
  }

  predicate OkMode(m: Mode) { m.Quoted? ==> IsQuote(m.q) }

  /** `t` stands in the text at `p`, and the text goes on with a neutral character, if it goes on. */
  predicate StandsAt(text: string, p: nat, t: string) {
    && p + |t| <= |text| && text[p..p + |t|] == t
    && (p + |t| < |text| ==> Neutral(text[p + |t|]))
  }

  predicate AreWords(kws: seq<string>) {
    forall k | 0 <= k < |kws| :: |kws[k]| > 0 && forall i | 0 <= i < |kws[k]| :: IsAlpha(kws[k][i])
  }

  lemma SameStep(text: string, p: nat, t: string, i: nat, mode: Mode)
    requires StandsAt(text, p, t) && i < |t| && OkMode(mode)
    ensures text[p + i] == t[i] && OkMode(Step(t, i, mode).0)
    ensures Step(text, p + i, mode) == (Step(t, i, mode).0, p + Step(t, i, mode).1, Step(t, i, mode).2)
  {
    assert text[p + i] == text[p..p + |t|][i];
    if i + 1 < |t| { assert text[p + i + 1] == text[p..p + |t|][i + 1]; }
  }

  lemma NotAcross(text: string, p: nat, t: string, i: nat, kw: string)
    requires StandsAt(text, p, t) && i < |t| && i + |kw| > |t| && forall n | 0 <= n < |kw| :: IsAlpha(kw[n])
    ensures !KeywordAt(text, p + i, kw)
  {
    if p + i + |kw| <= |text| {
      var n := |t| - i;
      assert IsAlpha(kw[n]) && !IsIdentifierChar(text[p + |t|]);
      assert Upper(text[(p + i) + n]) != Upper(kw[n]);
    }
  }

  lemma NoNewKeyword(text: string, p: nat, t: string, i: nat, kws: seq<string>)
    requires StandsAt(text, p, t) && i < |t| && AreWords(kws)
    ensures AnyKeywordAt(text, p + i, kws) ==> AnyKeywordAt(t, i, kws)
  {
    assert forall n | 0 <= n < |t| :: text[p + n] == text[p..p + |t|][n] == t[n];
    forall k | 0 <= k < |kws|
      ensures KeywordAt(text, p + i, kws[k]) ==> KeywordAt(t, i, kws[k])
    {
      if i + |kws[k]| > |t| { NotAcross(text, p, t, i, kws[k]); }
    }
  }

  /** A calm piece is calm wherever it stands. */
  lemma {:induction false} CalmInContext(text: string, p: nat, t: string, i: nat, mode: Mode, depth: nat,
                                         kws: seq<string>)
    requires StandsAt(text, p, t) && i <= |t| && OkMode(mode) && AreWords(kws)
    requires Calm(t, i, mode, depth, |t|, kws)
    ensures Calm(text, p + i, mode, depth, p + |t|, kws)
    decreases |t| - i
  {
    if i < |t| {
      var (mode', i', plain) := Step(t, i, mode);
      SameStep(text, p, t, i, mode);
      NoNewKeyword(text, p, t, i, kws);
      CalmInContext(text, p, t, i', mode', Depth(depth, plain, t[i]), kws);
    }
  }

  lemma {:induction false} BalancedInContext(text: string, p: nat, t: string, i: nat, mode: Mode, depth: nat)
    requires StandsAt(text, p, t) && i <= |t| && OkMode(mode)
    requires Balanced(t, i, mode, depth, |t|)
    ensures Balanced(text, p + i, mode, depth, p + |t|)
    decreases |t| - i
  {
    if i < |t| {
      var (mode', i', plain) := Step(t, i, mode);
      SameStep(text, p, t, i, mode);
      BalancedInContext(text, p, t, i', mode', Depth(depth, plain, t[i]));
    }
  }

  /** One calm piece after another, unless they would run together. */
  lemma CalmJoin(a: string, b: string, kws: seq<string>)
    requires CalmPiece(a, kws) && CalmPiece(b, kws) && AreWords(kws)
    requires b != [] ==> Neutral(b[0])
    ensures CalmPiece(a + b, kws)
  {
    assert StandsAt(a + b, 0, a) && StandsAt(a + b, |a|, b);
    CalmInContext(a + b, 0, a, 0, Plain, 0, kws);
    CalmInContext(a + b, |a|, b, 0, Plain, 0, kws);
    CalmThen(a + b, 0, Plain, 0, |a|, |a + b|, kws);
  }

  // ----- calm pieces

  lemma {:induction false} InQuotes(text: string, p: nat, id: string, i: nat, kws: seq<string>)
    requires i <= |id| && p + |Doubled(id[i..])| + 1 == |text|
    requires text[p..p + |Doubled(id[i..])|] == Doubled(id[i..]) && text[|text| - 1] == '"'
    ensures Calm(text, p, Quoted('"'), 0, |text|, kws)
    decreases |id| - i
  {
    if i == |id| {
      assert Step(text, p, Quoted('"')) == (Plain, p + 1, false);
      assert Calm(text, p + 1, Plain, 0, |text|, kws);
    } else {
      var d := Doubled(id[i..]);
      assert id[i..][1..] == id[i + 1..];
      var rest := Doubled(id[i + 1..]);
      var w := if id[i] == '"' then 2 else 1;
      assert d[w..] == rest;
      assert forall n | 0 <= n < |d| :: text[p + n] == text[p..p + |d|][n] == d[n];
      assert text[p + w..p + w + |rest|] == rest;
      assert text[p] == d[0] && (w == 2 ==> text[p + 1] == d[1]);
      assert Step(text, p, Quoted('"')) == (Quoted('"'), p + w, false);
      InQuotes(text, p + w, id, i + 1, kws);
    }
  }

  lemma QuotedIsCalm(id: string, kws: seq<string>)
    ensures CalmPiece(QuoteAnsi(id), kws)
  {
    var text := QuoteAnsi(id);
    assert id[0..] == id;
    assert text[1..1 + |Doubled(id)|] == Doubled(id);
    InQuotes(text, 1, id, 0, kws);
  }

  lemma {:induction false} LettersCalm(w: string, i: nat, kws: seq<string>)
    requires i <= |w| && (forall n | 0 <= n < |w| :: IsAlpha(w[n]))
    requires i == 0 && w != [] ==> !AnyKeywordAt(w, 0, kws)
    ensures Calm(w, i, Plain, 0, |w|, kws)
    decreases |w| - i
  {
    if i < |w| {
      LettersCalm(w, i + 1, kws);
      assert i > 0 ==> IsIdentifierChar(w[i - 1]);
    }
  }

  lemma EmptyCalm(kws: seq<string>)
    ensures CalmPiece("", kws)
  {}

  /** A neutral character, with no meaning of its own, and then a calm piece. */
  lemma PrefixedCalm(c: char, t: string, kws: seq<string>)
    requires CalmPiece(t, kws) && AreWords(kws)
    requires Neutral(c) && c != ',' && c != '(' && c != ')' && c != '['
    ensures CalmPiece([c] + t, kws)
  {
    var text := [c] + t;
    assert text[1..1 + |t|] == t;
    assert Step(text, 0, Plain) == (Plain, 1, true);
    forall k | 0 <= k < |kws|
      ensures !KeywordAt(text, 0, kws[k])
    {
      assert IsAlpha(kws[k][0]) && Upper(text[0 + 0]) != Upper(kws[k][0]);
    }
    CalmInContext(text, 1, t, 0, Plain, 0, kws);
  }

  lemma SpacedCalm(t: string, kws: seq<string>)
    requires CalmPiece(t, kws) && AreWords(kws)
    ensures CalmPiece(" " + t, kws)
  {
    PrefixedCalm(' ', t, kws);
    assert [' '] == " ";
  }

  /** A balanced piece in parentheses. */
  lemma ParenthesesCalm(t: string, kws: seq<string>)
    requires BalancedPiece(t) && AreWords(kws)
    ensures CalmPiece("(" + t + ")", kws)
  {
    var text := "(" + t + ")";
    assert text[1..1 + |t|] == t && text[|t| + 1] == ')';
    BalancedInContext(text, 1, t, 0, Plain, 0);
    GroupCalm(text, 1, Plain, 0, |t| + 1, kws);
    assert Step(text, 0, Plain) == (Plain, 1, true);
    forall k | 0 <= k < |kws|
      ensures !KeywordAt(text, 0, kws[k])
    {
      assert IsAlpha(kws[k][0]) && Upper(kws[k][0]) != Upper('(');
    }
  }
}
