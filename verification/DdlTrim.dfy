/** White space at the end of a segment means nothing to the parsers. */
module DdlTrims {
  import opened Wrappers
  import opened Decimals
  import opened DdlScanner
  import opened DdlCalm
  import opened DdlColumns
  import opened DdlRoundTrip

  /** From `n` on there is only white space. */
  predicate OnlySpace(s: string, n: nat) {
    n <= |s| && forall i | n <= i < |s| :: IsSpace(s[i])
  }

  lemma {:induction false} TrimRightCuts(s: string) returns (n: nat)
    ensures OnlySpace(s, n) && TrimRight(s) == s[..n] && (n > 0 ==> !IsSpace(s[n - 1]))
  {
    if s != [] && IsSpace(s[|s| - 1]) {
      n := TrimRightCuts(s[..|s| - 1]);
      assert forall i | n <= i < |s| - 1 :: s[..|s| - 1][i] == s[i];
      assert s[..|s| - 1][..n] == s[..n];
    } else {
      n := |s|;
      assert s[..n] == s;
    }
  }

  lemma {:induction false} SkipsCut(s: string, n: nat, p: nat)
    requires OnlySpace(s, n) && p <= n
    ensures var q, q' := SkipSpaces(s, p), SkipSpaces(s[..n], p); if q' < n then q == q' else q == |s|
    decreases n - p
  {
    if p < n {
      if IsSpace(s[p]) { SkipsCut(s, n, p + 1); }
    } else {
      SkipsAll(s, p);
    }
  }

  lemma {:induction false} SkipsAll(s: string, p: nat)
    requires OnlySpace(s, p)
    ensures SkipSpaces(s, p) == |s|
    decreases |s| - p
  {
    if p < |s| { SkipsAll(s, p + 1); }
  }

  lemma StepsCut(s: string, n: nat, i: nat, mode: Mode)
    requires OnlySpace(s, n) && i < n && OkMode(mode)
    ensures Step(s[..n], i, mode) == Step(s, i, mode) && OkMode(Step(s, i, mode).0)
  {}

  lemma WordAtCut(s: string, n: nat, i: nat, kw: string)
    requires OnlySpace(s, n) && i < n && IsWord(kw)
    ensures KeywordAt(s[..n], i, kw) <==> KeywordAt(s, i, kw)
  {
    var t := s[..n];
    if i + |kw| > n && i + |kw| <= |s| {
      assert IsSpace(s[i + (n - i)]) && IsAlpha(kw[n - i]);
    }
  }

  lemma {:induction false} NoWordInSpace(s: string, i: nat, mode: Mode, depth: nat, kw: string)
    requires OnlySpace(s, i) && IsWord(kw)
    ensures Keyword(s, kw, i, mode, depth) == None
    decreases |s| - i
  {
    if i < |s| {
      assert KeywordAt(s, i, kw) ==> Upper(s[i + 0]) == Upper(kw[0]);
      var (mode', i', plain) := Step(s, i, mode);
      NoWordInSpace(s, i', mode', Depth(depth, plain, s[i]), kw);
    }
  }

  lemma {:induction false} WordsCut(s: string, n: nat, i: nat, mode: Mode, depth: nat, kw: string)
    requires OnlySpace(s, n) && i <= n && OkMode(mode) && IsWord(kw)
    ensures Keyword(s[..n], kw, i, mode, depth) == Keyword(s, kw, i, mode, depth)
    decreases n - i
  {
    if i < n {
      StepsCut(s, n, i, mode);
      WordAtCut(s, n, i, kw);
      var (mode', i', plain) := Step(s, i, mode);
      WordsCut(s, n, i', mode', Depth(depth, plain, s[i]), kw);
    } else {
      NoWordInSpace(s, i, mode, depth, kw);
    }
  }

  lemma {:induction false} NoneClosesInSpace(s: string, i: nat, mode: Mode, depth: nat)
    requires OnlySpace(s, i) && depth > 0
    ensures Closing(s, i, mode, depth) == None
    decreases |s| - i
  {
    if i < |s| {
      var (mode', i', _) := Step(s, i, mode);
      NoneClosesInSpace(s, i', mode', depth);
    }
  }

  lemma {:induction false} ClosesCut(s: string, n: nat, i: nat, mode: Mode, depth: nat)
    requires OnlySpace(s, n) && i <= n && OkMode(mode) && depth > 0
    ensures Closing(s[..n], i, mode, depth) == Closing(s, i, mode, depth)
    decreases n - i
  {
    if i < n {
      StepsCut(s, n, i, mode);
      var (mode', i', plain) := Step(s, i, mode);
      if plain && s[i] == ')' {
        if depth > 1 { ClosesCut(s, n, i', mode', depth - 1); }
      } else {
        ClosesCut(s, n, i', mode', if plain && s[i] == '(' then depth + 1 else depth);
      }
    } else {
      NoneClosesInSpace(s, i, mode, depth);
    }
  }

  lemma {:induction false} NotClosedInSpace(s: string, p: nat, close: char, result: string)
    requires OnlySpace(s, p) && !IsSpace(close)
    ensures ReadQuoted(s, p, close, result).0 == None
    decreases |s| - p
  {
    if p < |s| { NotClosedInSpace(s, p + 1, close, result + [s[p]]); }
  }

  lemma {:induction false} QuotedCut(s: string, n: nat, p: nat, close: char, result: string)
    requires OnlySpace(s, n) && p <= n && !IsSpace(close)
    ensures ReadQuoted(s[..n], p, close, result).0 == ReadQuoted(s, p, close, result).0
    ensures ReadQuoted(s, p, close, result).0.Some?
            ==> ReadQuoted(s[..n], p, close, result) == ReadQuoted(s, p, close, result)
    decreases n - p
  {
    if p == n {
      NotClosedInSpace(s, p, close, result);
    } else if s[p] != close {
      QuotedCut(s, n, p + 1, close, result + [s[p]]);
    } else if p + 1 < n && s[p + 1] == close {
      QuotedCut(s, n, p + 2, close, result + [close]);
    }
  }

  lemma {:induction false} WordEndsCut(s: string, n: nat, p: nat)
    requires OnlySpace(s, n) && p <= n
    ensures WordEnd(s[..n], p) == WordEnd(s, p) <= n
    decreases n - p
  {
    if p < n && !EndsWord(s[p]) { WordEndsCut(s, n, p + 1); }
  }

  lemma IdentifierCut(s: string, n: nat, p: nat)
    requires OnlySpace(s, n) && p <= n
    ensures ReadIdentifier(s[..n], p).0 == ReadIdentifier(s, p).0
    ensures ReadIdentifier(s, p).0.Some? ==> ReadIdentifier(s[..n], p) == ReadIdentifier(s, p)
  {
    SkipsCut(s, n, p);
    var q := SkipSpaces(s[..n], p);
    if q < n {
      QuotedCut(s, n, q + 1, if s[q] == '[' then ']' else if s[q] == '`' then '`' else '"', []);
      WordEndsCut(s, n, q);
      assert s[..n][q..WordEnd(s, q)] == s[q..WordEnd(s, q)];
    }
  }

  lemma ConstraintIsWord()
    ensures IsWord("CONSTRAINT")
  {}

  lemma {:induction false} ConstraintCut(s: string, n: nat, search: nat, target: nat)
    requires OnlySpace(s, n) && search <= n && target < n
    ensures ConstraintName(s[..n], search, target) == ConstraintName(s, search, target)
    decreases n - search
  {
    hide Keyword, ReadIdentifier, SkipSpaces;
    ConstraintIsWord();
    WordsCut(s, n, search, Plain, 0, "CONSTRAINT");
    var at := Keyword(s, "CONSTRAINT", search, Plain, 0);
    KeywordFits(s[..n], "CONSTRAINT", search, Plain, 0);
    KeywordFits(s, "CONSTRAINT", search, Plain, 0);
    if search < target && at.Some? && at.value < target {
      var p := at.value + 10;
      IdentifierCut(s, n, p);
      var (name, q) := ReadIdentifier(s, p);
      if name.Some? { SkipsCut(s, n, q); }
      ConstraintCut(s, n, p, target);
    }
  }

  lemma CheckCut(s: string, n: nat, at: nat)
    requires OnlySpace(s, n) && at + 5 <= n
    ensures CheckExpression(s[..n], at) == CheckExpression(s, at)
  {
    hide Closing, Trim;
    SkipsCut(s, n, at + 5);
    var p := SkipSpaces(s[..n], at + 5);
    if p < n && s[p] == '(' {
      ClosesCut(s, n, p + 1, Plain, 1);
      var close := MatchingParen(s, p);
      if close.Some? { assert s[..n][p + 1..close.value] == s[p + 1..close.value]; }
    }
  }
}
