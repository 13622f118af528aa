/** The round trip of a whole table: columns are rendered, the body is split, and what the
    segments say about names, UNIQUE and CHECK is what was rendered. */
module DdlTables {
  import opened Wrappers
  import opened Decimals
  import opened DdlScanner
  import opened DdlCalm
  import opened DdlColumns
  import opened DdlRoundTrip

  // ----- one segment

  /** Everything after the name. */
  function AfterName(c: Column): string {
    TypePart(c) + NamePart(c) + UniquePart(c) + DefaultPart(c) + CheckPart(c) + ReferencesPart(c)
  }

  lemma NameFirst(q: string, t: string, n: string, u: string, d: string, f: string, g: string)
    ensures q + t + n + u + d + f + g == q + (t + n + u + d + f + g)
  {}

  lemma FirstOf(t: string, n: string, u: string, d: string, f: string, g: string)
    requires t != []
    ensures t + n + u + d + f + g != [] && (t + n + u + d + f + g)[0] == t[0]
  {}

  lemma StartsSpaced(c: Column)
    ensures TypePart(c) != [] && TypePart(c)[0] == ' '
    ensures AfterName(c) != [] && AfterName(c)[0] == ' ' && Rendered(c) == QuoteAnsi(c.name) + AfterName(c)
  {
    hide QuoteAnsi, NamePart, UniquePart, DefaultPart, CheckPart, ReferencesPart;
    NameFirst(QuoteAnsi(c.name), TypePart(c), NamePart(c), UniquePart(c), DefaultPart(c), CheckPart(c),
            ReferencesPart(c));
    FirstOf(TypePart(c), NamePart(c), UniquePart(c), DefaultPart(c), CheckPart(c), ReferencesPart(c));
  }

  lemma NameReads(c: Column)
    ensures ReadIdentifier(Rendered(c), 0) == (Some(c.name), |QuoteAnsi(c.name)|)
  {
    StartsSpaced(c);
    var s, q := Rendered(c), QuoteAnsi(c.name);
    hide QuoteAnsi, Rendered, AfterName, ReadIdentifier;
    assert s[0..|q|] == q && s[|q|] == ' ';
    QuotedReadsBack(s, 0, c.name);
  }

  /** The keyword is found behind the parts before it. */
  lemma FoundAmong(q: string, t: string, kw: string, rest: string)
    requires IsWord(kw) && CalmPiece(t, [kw]) && StartsNeutral(rest)
    ensures Keyword(q + t + (" " + kw) + rest, kw, |q|, Plain, 0) == Some(|q + t| + 1)
  {
    hide CalmPiece, StandsAt, SpacedWordAt, StartsNeutral, Keyword;
    var word := " " + kw;
    var s := q + t + word + rest;
    WordStands(q + t, kw, rest);
    SpaceIsNeutral(word, rest);
    StandsBetween(q, t, word + rest);
    assert s == q + t + (word + rest);
    FoundBehind(s, |q|, t, kw);
  }

  lemma SpaceIsNeutral(word: string, rest: string)
    requires word != [] && word[0] == ' '
    ensures StartsNeutral(word + rest)
  {}

  lemma FoundNowhere(q: string, t: string, kw: string)
    requires IsWord(kw) && CalmPiece(t, [kw])
    ensures Keyword(q + t, kw, |q|, Plain, 0) == None
  {
    assert q + t == q + t + "";
    StandsBetween(q, t, "");
    NotFound(q + t, |q|, t, kw);
  }

  lemma PartsNeutralHere(c: Column)
    requires Renderable(c)
    ensures StartsNeutral(TypePart(c)) && StartsNeutral(NamePart(c)) && StartsNeutral(UniquePart(c))
    ensures StartsNeutral(DefaultPart(c)) && StartsNeutral(CheckPart(c)) && StartsNeutral(ReferencesPart(c))
  {
    hide QuoteAnsi, ReferencesPart, Renderable;
    ReferencesCalm(c, "CHECK");
  }

  lemma Around3(q: string, t: string, n: string, u: string, d: string, f: string, g: string)
    ensures q + t + n + u + d + f + g == q + (t + n) + u + (d + f + g)
  {}

  lemma SumNeutral3(c: Column)
    requires Renderable(c)
    ensures StartsNeutral(DefaultPart(c) + CheckPart(c) + ReferencesPart(c))
            && StartsNeutral(CheckPart(c) + ReferencesPart(c))
  {
    hide DefaultPart, CheckPart, ReferencesPart, Renderable;
    PartsNeutralHere(c);
    SumNeutral(DefaultPart(c), CheckPart(c), ReferencesPart(c));
    SumNeutral("", CheckPart(c), ReferencesPart(c));
    assert "" + CheckPart(c) + ReferencesPart(c) == CheckPart(c) + ReferencesPart(c);
  }

  /** The keyword UNIQUE is found behind the type and the constraint name, or not at all. */
  lemma UniqueFound(c: Column)
    requires Renderable(c)
    ensures Keyword(Rendered(c), "UNIQUE", |QuoteAnsi(c.name)|, Plain, 0)
         == if c.unique then Some(|QuoteAnsi(c.name) + (TypePart(c) + NamePart(c))| + 1) else None
  {
    hide CalmPiece, QuoteAnsi, TypePart, DefaultPart, CheckPart, ReferencesPart, Keyword, StartsNeutral;
    var q, t, n := QuoteAnsi(c.name), TypePart(c), NamePart(c);
    var d, f, g := DefaultPart(c), CheckPart(c), ReferencesPart(c);
    TypeCalm(c, "UNIQUE");
    NameCalm(c, "UNIQUE");
    DefaultCalm(c, "UNIQUE");
    CheckCalm(c);
    ReferencesCalm(c, "UNIQUE");
    PartsNeutralHere(c);
    if c.unique {
      Join(t, n, "UNIQUE");
      SumNeutral3(c);
      FoundAmong(q, t + n, "UNIQUE", d + f + g);
      Around3(q, t, n, " " + "UNIQUE", d, f, g);
      assert " " + "UNIQUE" == " UNIQUE";
    } else {
      Nothing("UNIQUE");
      JoinAll(t, "", d, f, g, "UNIQUE");
      FoundNowhere(q, t + "" + d + f + g, "UNIQUE");
      WithoutUnique(q, t, d, f, g);
    }
  }

  lemma WithoutUnique(q: string, t: string, d: string, f: string, g: string)
    ensures q + t + "" + "" + d + f + g == q + (t + "" + d + f + g)
  {}

  lemma SumNeutral(a: string, b: string, c: string)
    requires StartsNeutral(a) && StartsNeutral(b) && StartsNeutral(c)
    ensures StartsNeutral(a + b + c)
  {}

  lemma WordStands(before: string, kw: string, rest: string)
    requires StartsNeutral(rest)
    ensures SpacedWordAt(before + (" " + kw) + rest, |before|, kw)
  {
    var text, p := before + (" " + kw) + rest, |before|;
    assert text[p..p + 1 + |kw|] == " " + kw;
    assert text[p] == (" " + kw)[0];
    assert text[p + 1..p + 1 + |kw|] == (" " + kw)[1..] == kw;
  }

  lemma SkipsOne(text: string, pos: nat)
    requires pos + 1 < |text| && text[pos] == ' ' && !IsSpace(text[pos + 1])
    ensures SkipSpaces(text, pos) == pos + 1
    ensures ReadIdentifier(text, pos) == ReadIdentifier(text, pos + 1)
  {
    assert SkipSpaces(text, pos + 1) == pos + 1;
  }

  /** A space and a quoted identifier read back, up to the space behind it. */
  lemma SpacedNameReads(before: string, id: string, rest: string)
    requires rest != [] && rest[0] == ' '
    ensures var text, pos := before + " " + QuoteAnsi(id) + rest, |before|;
            ReadIdentifier(text, pos) == (Some(id), pos + 1 + |QuoteAnsi(id)|)
  {
    var text, pos, q := before + " " + QuoteAnsi(id) + rest, |before|, QuoteAnsi(id);
    assert q[0] == '"' && q[|q| - 1] == '"';
    hide QuoteAnsi, ReadIdentifier, SkipSpaces;
    assert text == (before + " ") + q + rest;
    assert text[pos] == ' ' && text[pos + 1] == q[0];
    Sub(before + " ", q, rest);
    SkipsOne(text, pos);
    assert text[pos + 1 + |q|] == rest[0];
    QuotedReadsBack(text, pos + 1, id);
  }

  lemma Sub(a: string, t: string, b: string)
    ensures (a + t + b)[|a|..|a| + |t|] == t
  {}

  /** The constraint name is the one before UNIQUE, if there is one. */
  lemma ConstraintFound(q: string, t: string, name: Option<string>, rest: string)
    requires CalmPiece(q + t, ["CONSTRAINT"]) && StartsNeutral(rest)
    requires StartsNeutral(t)
    ensures var n := if name.Some? then " CONSTRAINT " + QuoteAnsi(name.value) else "";
            ConstraintName(q + (t + n) + " UNIQUE" + rest, 0, |q + (t + n)| + 1) == name
  {
    hide ConstraintName, CalmPiece, QuoteAnsi, StartsNeutral;
    match name
    case Some(id) => NamedFound(q + t, id, rest);
      assert q + (t + (" CONSTRAINT " + QuoteAnsi(id))) == (q + t) + (" CONSTRAINT " + QuoteAnsi(id));
    case None => UnnamedFound(q + t, rest);
      assert q + (t + "") == q + t;
  }

  lemma NamedFound(before: string, id: string, rest: string)
    requires CalmPiece(before, ["CONSTRAINT"]) && StartsNeutral(rest)
    ensures ConstraintName(before + (" CONSTRAINT " + QuoteAnsi(id)) + " UNIQUE" + rest, 0,
                           |before + (" CONSTRAINT " + QuoteAnsi(id))| + 1) == Some(id)
  {
    hide CalmPiece, QuoteAnsi, Keyword, ReadIdentifier, SkipSpaces, StartsNeutral;
    var q, target := QuoteAnsi(id), |before| + 12 + |QuoteAnsi(id)| + 1;
    var s := before + (" CONSTRAINT " + q) + " UNIQUE" + rest;
    var behind := " " + q + " UNIQUE" + rest;
    SpaceIsNeutral(" ", q + " UNIQUE" + rest);
    NamedParts(before, q, rest);
    FoundAmong("", before, "CONSTRAINT", behind);
    SpacedNameReads(before + " CONSTRAINT", id, " UNIQUE" + rest);
    SkipsOne(s, target - 1);
  }

  lemma NamedParts(before: string, q: string, rest: string)
    ensures var s, target := before + (" CONSTRAINT " + q) + " UNIQUE" + rest, |before| + 12 + |q| + 1;
            && s == "" + before + (" " + "CONSTRAINT") + (" " + q + " UNIQUE" + rest)
            && s == (before + " CONSTRAINT") + " " + q + (" UNIQUE" + rest)
            && target < |s| && s[target - 1] == ' ' && s[target] == 'U'
    ensures "" + before == before && " " + q + " UNIQUE" + rest == " " + (q + " UNIQUE" + rest)
    ensures " UNIQUE" + rest != [] && (" UNIQUE" + rest)[0] == ' '
  {
    assert " " + "CONSTRAINT" == " CONSTRAINT";
    assert " CONSTRAINT " + q == " CONSTRAINT" + (" " + q);
  }

  lemma UnnamedFound(before: string, rest: string)
    requires CalmPiece(before, ["CONSTRAINT"]) && StartsNeutral(rest)
    ensures ConstraintName(before + " UNIQUE" + rest, 0, |before| + 1) == None
  {
    hide CalmPiece, StandsAt, Keyword, StartsNeutral, ReadIdentifier;
    var s, t, kw := before + " UNIQUE" + rest, before + " UNIQUE", "CONSTRAINT";
    assert " " + "UNIQUE" == " UNIQUE";
    UniqueIsOther();
    SpaceIsNeutral(" UNIQUE", "");
    assert " UNIQUE" + "" == " UNIQUE";
    Join(before, " UNIQUE", kw);
    assert s == "" + t + rest;
    StandsBetween("", t, rest);
    PassesPiece(s, 0, t, kw);
  }

  lemma UniqueIsOther()
    ensures CalmPiece(" UNIQUE", ["CONSTRAINT"])
  {
    assert Differ("UNIQUE", "CONSTRAINT") && " " + "UNIQUE" == " UNIQUE";
    WordCalm("UNIQUE", "CONSTRAINT");
  }

  lemma PassesPiece(text: string, p: nat, t: string, kw: string)
    requires IsWord(kw) && StandsAt(text, p, t) && CalmPiece(t, [kw])
    ensures Keyword(text, kw, p, Plain, 0) == Keyword(text, kw, p + |t|, Plain, 0)
  {
    CalmInContext(text, p, t, 0, Plain, 0, [kw]);
    KeywordPasses(text, p, Plain, 0, p + |t|, [kw], kw);
  }

  lemma ConstraintOf(c: Column)
    requires Renderable(c) && c.unique
    ensures ConstraintName(Rendered(c), 0, |QuoteAnsi(c.name) + (TypePart(c) + NamePart(c))| + 1) == c.uniqueName
  {
    hide CalmPiece, QuoteAnsi, TypePart, DefaultPart, CheckPart, ReferencesPart, Keyword, StartsNeutral, ConstraintName;
    var q, t, d, f, g := QuoteAnsi(c.name), TypePart(c), DefaultPart(c), CheckPart(c), ReferencesPart(c);
    QuotedIsCalm(c.name, ["CONSTRAINT"]);
    TypeCalm(c, "CONSTRAINT");
    PartsNeutralHere(c);
    Join(q, t, "CONSTRAINT");
    SumNeutral3(c);
    ConstraintFound(q, t, c.uniqueName, d + f + g);
    Around3(q, t, NamePart(c), " UNIQUE", d, f, g);
  }

  // ----- the check

  lemma CheckReads(before: string, check: string, rest: string)
    requires BalancedPiece(check)
    ensures CheckExpression(before + " CHECK" + (" (" + check + ")") + rest, |before| + 1) == Some(Trim(check))
  {
    hide BalancedPiece, Trim, SkipSpaces, MatchingParen;
    var s, open := before + " CHECK" + (" (" + check + ")") + rest, |before| + 7;
    assert s[open - 1] == ' ' && s[open] == '(';
    SkipsOne(s, open - 1);
    var head, tail := before + " CHECK (", ")" + rest;
    assert s == head + check + tail;
    Sub(head, check, tail);
    assert s[open + 1..open + 1 + |check|] == check && s[open + 1 + |check|] == ')';
    ParenthesisMatches(s, open, check);
  }

  lemma ParenthesisMatches(s: string, open: nat, t: string)
    requires BalancedPiece(t) && open + 1 + |t| < |s| && s[open] == '('
    requires s[open + 1..open + 1 + |t|] == t && s[open + 1 + |t|] == ')'
    ensures MatchingParen(s, open) == Some(open + 1 + |t|)
  {
    assert StandsAt(s, open + 1, t);
    BalancedInContext(s, open + 1, t, 0, Plain, 0);
    ClosesAt(s, open + 1, Plain, 0, open + 1 + |t|);
  }

  lemma AroundCheck(q: string, t: string, n: string, u: string, d: string, f: string, g: string)
    ensures q + t + n + u + d + f + g == q + (t + n + u + d) + f + g
  {}

  /** The keyword CHECK is found behind everything before it, with its condition, or not at all. */
  lemma CheckFound(c: Column)
    requires Renderable(c)
    ensures var at := Keyword(Rendered(c), "CHECK", |QuoteAnsi(c.name)|, Plain, 0);
            && (at.Some? <==> c.check.Some?)
            && (at.Some? ==> at.value + 5 <= |Rendered(c)|
                             && CheckExpression(Rendered(c), at.value) == Some(Trim(c.check.value)))
  {
    hide CalmPiece, QuoteAnsi, TypePart, NamePart, UniquePart, DefaultPart, ReferencesPart, Keyword, StartsNeutral,
         Trim, CheckExpression, BalancedPiece;
    var q, t, n := QuoteAnsi(c.name), TypePart(c), NamePart(c);
    var u, d, g := UniquePart(c), DefaultPart(c), ReferencesPart(c);
    TypeCalm(c, "CHECK");
    NameCalm(c, "CHECK");
    UniqueCalm(c, "CHECK");
    DefaultCalm(c, "CHECK");
    ReferencesCalm(c, "CHECK");
    PartsNeutralHere(c);
    JoinAll(t, n, u, d, g, "CHECK");
    AroundCheck(q, t, n, u, d, CheckPart(c), g);
    if c.check.Some? {
      var x := c.check.value;
      SpaceIsNeutral(" (" + x + ")", g);
      FoundAmong(q, t + n + u + d, "CHECK", " (" + x + ")" + g);
      CheckReads(q + (t + n + u + d), x, g);
      assert " " + "CHECK" == " CHECK";
      CheckTogether(q + (t + n + u + d), x, g);
    } else {
      FoundNowhere(q, t + n + u + d + g, "CHECK");
      WithoutCheck(q, t + n + u + d, g);
    }
  }

  lemma CheckTogether(before: string, x: string, g: string)
    ensures before + (" CHECK (" + x + ")") + g == before + " CHECK" + (" (" + x + ")" + g)
    ensures before + (" CHECK (" + x + ")") + g == before + " CHECK" + (" (" + x + ")") + g
  {
    assert " CHECK (" + x + ")" == " CHECK" + (" (" + x + ")");
  }

  lemma WithoutCheck(q: string, t: string, g: string)
    ensures q + t + "" + g == q + (t + g)
  {}
}
