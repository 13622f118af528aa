/** What is rendered for the columns of a table is found again when its body is split and parsed. */
module DdlRoundTrip {
  import opened Wrappers
  import opened Decimals
  import opened DdlScanner
  import opened DdlCalm
  import opened DdlColumns

  const KEYWORDS: seq<string> := ["UNIQUE", "CHECK", "CONSTRAINT"]

  /** The raw texts of a column have no comma and no constraint keyword outside of quotes, brackets,
      comments and parentheses, and its condition is balanced. */
  predicate Renderable(c: Column) {
    && CalmPiece(c.sqlType, KEYWORDS)
    && (c.defaultValue.Some? ==> CalmPiece(c.defaultValue.value, KEYWORDS))
    && (c.check.Some? ==> BalancedPiece(c.check.value))
    && (c.references.Some? ==>
          && (c.references.value.onDelete.Some? ==> CalmPiece(c.references.value.onDelete.value, KEYWORDS))
          && (c.references.value.onUpdate.Some? ==> CalmPiece(c.references.value.onUpdate.value, KEYWORDS)))
  }

  // ----- fewer keywords, calmer text

  predicate Among(few: seq<string>, kws: seq<string>) { forall k | k in few :: k in kws }

  lemma {:induction false} CalmForFewer(text: string, i: nat, mode: Mode, depth: nat, j: nat, kws: seq<string>,
                                        few: seq<string>)
    requires i <= j <= |text| && Calm(text, i, mode, depth, j, kws) && Among(few, kws)
    ensures Calm(text, i, mode, depth, j, few)
    decreases j - i
  {
    if i < j {
      var (mode', i', plain) := Step(text, i, mode);
      forall k | 0 <= k < |few| && !AnyKeywordAt(text, i, kws)
        ensures !KeywordAt(text, i, few[k])
      {
        assert few[k] in few && few[k] in kws;
      }
      CalmForFewer(text, i', mode', Depth(depth, plain, text[i]), j, kws, few);
    }
  }

  // ----- the parts of a column are calm

  /** The two words are not the same. */
  predicate Differ(w: string, kw: string) {
    |w| != |kw| || exists n :: 0 <= n < |w| && Upper(w[n]) != Upper(kw[n])
  }

  predicate IsWord(w: string) { w != [] && forall n | 0 <= n < |w| :: IsAlpha(w[n]) }

  /** A space and a word that is not the keyword. */
  lemma WordCalm(w: string, kw: string)
    requires IsWord(w) && IsWord(kw) && Differ(w, kw)
    ensures CalmPiece(" " + w, [kw])
  {
    assert !KeywordAt(w, 0, kw) by {
      if |w| > |kw| {
        assert IsIdentifierChar(w[0 + |kw|]);
      } else if |w| == |kw| {
        var n :| 0 <= n < |w| && Upper(w[n]) != Upper(kw[n]);
        assert Upper(w[0 + n]) != Upper(kw[n]);
      }
    }
    LettersCalm(w, 0, [kw]);
    SpacedCalm(w, [kw]);
  }

  predicate StartsNeutral(t: string) { t != [] ==> Neutral(t[0]) }

  lemma Join(a: string, b: string, kw: string)
    requires IsWord(kw) && CalmPiece(a, [kw]) && CalmPiece(b, [kw]) && StartsNeutral(b)
    ensures CalmPiece(a + b, [kw]) && (a != [] && StartsNeutral(a) ==> StartsNeutral(a + b))
  {
    CalmJoin(a, b, [kw]);
  }

  lemma SpacedQuote(id: string, kw: string)
    requires IsWord(kw)
    ensures CalmPiece(" " + QuoteAnsi(id), [kw])
  {
    QuotedIsCalm(id, [kw]);
    SpacedCalm(QuoteAnsi(id), [kw]);
  }

  lemma SpacedRaw(t: string, kw: string)
    requires CalmPiece(t, KEYWORDS) && IsWord(kw) && kw in KEYWORDS
    ensures CalmPiece(" " + t, [kw])
  {
    CalmForFewer(t, 0, Plain, 0, |t|, KEYWORDS, [kw]);
    SpacedCalm(t, [kw]);
  }

  /** A word and something after it. */
  lemma WordThen(w: string, t: string, kw: string)
    requires IsWord(w) && IsWord(kw) && Differ(w, kw) && CalmPiece(t, [kw]) && StartsNeutral(t)
    ensures CalmPiece(" " + w + t, [kw])
  {
    WordCalm(w, kw);
    Join(" " + w, t, kw);
  }

  lemma TypeCalm(c: Column, kw: string)
    requires Renderable(c) && IsWord(kw) && kw in KEYWORDS
    ensures CalmPiece(TypePart(c), [kw])
  {
    SpacedRaw(c.sqlType, kw);
    if c.notNull {
      assert Differ("NULL", kw) && Differ("NOT", kw);
      assert " " + "NOT" + " NULL" == " NOT NULL" && " " + "NULL" == " NULL";
      WordCalm("NULL", kw);
      WordThen("NOT", " NULL", kw);
      Join(" " + c.sqlType, " NOT NULL", kw);
    } else {
      assert TypePart(c) == " " + c.sqlType;
    }
  }

  lemma NameCalm(c: Column, kw: string)
    requires kw == "UNIQUE" || kw == "CHECK"
    ensures CalmPiece(NamePart(c), [kw])
  {
    if c.unique && c.uniqueName.Some? {
      SpacedQuote(c.uniqueName.value, kw);
      assert Differ("CONSTRAINT", kw);
      WordThen("CONSTRAINT", " " + QuoteAnsi(c.uniqueName.value), kw);
      assert " CONSTRAINT " + QuoteAnsi(c.uniqueName.value)
          == " " + "CONSTRAINT" + (" " + QuoteAnsi(c.uniqueName.value));
    } else {
      EmptyCalm([kw]);
    }
  }

  lemma DefaultCalm(c: Column, kw: string)
    requires Renderable(c) && IsWord(kw) && kw in KEYWORDS
    ensures CalmPiece(DefaultPart(c), [kw])
  {
    if c.defaultValue.Some? {
      SpacedRaw(c.defaultValue.value, kw);
      assert Differ("DEFAULT", kw);
      WordThen("DEFAULT", " " + c.defaultValue.value, kw);
      assert " DEFAULT " + c.defaultValue.value == " " + "DEFAULT" + (" " + c.defaultValue.value);
    } else {
      EmptyCalm([kw]);
    }
  }

  lemma GroupedCalm(t: string, kw: string)
    requires BalancedPiece(t) && IsWord(kw)
    ensures CalmPiece(" (" + t + ")", [kw])
  {
    ParenthesesCalm(t, [kw]);
    SpacedCalm("(" + t + ")", [kw]);
    assert " (" + t + ")" == " " + ("(" + t + ")");
  }

  lemma CheckCalm(c: Column)
    requires Renderable(c)
    ensures CalmPiece(CheckPart(c), ["UNIQUE"])
  {
    if c.check.Some? {
      GroupedCalm(c.check.value, "UNIQUE");
      assert Differ("CHECK", "UNIQUE");
      WordThen("CHECK", " (" + c.check.value + ")", "UNIQUE");
      assert " CHECK (" + c.check.value + ")" == " " + "CHECK" + (" (" + c.check.value + ")");
    } else {
      EmptyCalm(["UNIQUE"]);
    }
  }

  lemma TableCalm(r: Reference, kw: string)
    requires IsWord(kw)
    ensures CalmPiece(ReferencedTable(r), [kw])
  {
    QuotedIsCalm(r.table, [kw]);
    if r.schema.Some? {
      QuotedIsCalm(r.schema.value, [kw]);
      PrefixedCalm('.', QuoteAnsi(r.table), [kw]);
      Join(QuoteAnsi(r.schema.value), ['.'] + QuoteAnsi(r.table), kw);
      assert ReferencedTable(r) == QuoteAnsi(r.schema.value) + (['.'] + QuoteAnsi(r.table));
    } else {
      assert ReferencedTable(r) == QuoteAnsi(r.table);
    }
  }

  lemma ActionCalm(w: string, t: string, kw: string)
    requires (kw == "UNIQUE" || kw == "CHECK") && (w == "DELETE" || w == "UPDATE") && CalmPiece(t, KEYWORDS)
    ensures CalmPiece(" ON " + w + " " + t, [kw])
  {
    hide CalmPiece;
    assert Upper("UPDATE"[1]) != Upper("UNIQUE"[1]) && Upper("DELETE"[0]) != Upper("UNIQUE"[0]);
    assert Differ(w, kw) && Differ("ON", kw);
    SpacedRaw(t, kw);
    WordThen(w, " " + t, kw);
    WordThen("ON", " " + w + (" " + t), kw);
    OnAction(w, t);
  }

  lemma OnAction(w: string, t: string)
    ensures " ON " + w + " " + t == " " + "ON" + (" " + w + (" " + t))
  {}

  lemma DeferredCalm(kw: string)
    requires kw == "UNIQUE" || kw == "CHECK"
    ensures CalmPiece(" DEFERRABLE INITIALLY DEFERRED", [kw])
  {
    hide CalmPiece;
    assert |kw| < 8 && |"DEFERRABLE"| == 10 && |"INITIALLY"| == 9 && |"DEFERRED"| == 8;
    WordCalm("DEFERRED", kw);
    WordThen("INITIALLY", " " + "DEFERRED", kw);
    WordThen("DEFERRABLE", " " + "INITIALLY" + (" " + "DEFERRED"), kw);
    ThreeWords();
  }

  lemma ThreeWords()
    ensures " DEFERRABLE INITIALLY DEFERRED" == " " + "DEFERRABLE" + (" " + "INITIALLY" + (" " + "DEFERRED"))
  {
    assert " DEFERRABLE INITIALLY DEFERRED" == " " + "DEFERRABLE" + (" " + "INITIALLY" + (" " + "DEFERRED"));
  }

  lemma TargetCalm(r: Reference, kw: string)
    requires kw == "UNIQUE" || kw == "CHECK"
    ensures CalmPiece(ReferenceTarget(r), [kw])
  {
    hide ReferencedTable, QuoteAnsi;
    TableCalm(r, kw);
    SpacedCalm(ReferencedTable(r), [kw]);
    assert Differ("REFERENCES", kw);
    WordThen("REFERENCES", " " + ReferencedTable(r), kw);
    QuotedIsCalm(r.column, [kw]);
    var q := QuoteAnsi(r.column);
    CalmIsBalanced(q, 0, Plain, 0, |q|, [kw]);
    GroupedCalm(q, kw);
    Join(" " + "REFERENCES" + (" " + ReferencedTable(r)), " (" + q + ")", kw);
    assert " REFERENCES " + ReferencedTable(r) + " (" + q + ")"
        == " " + "REFERENCES" + (" " + ReferencedTable(r)) + (" (" + q + ")");
  }

  lemma ReferenceNameCalm(r: Reference, kw: string)
    requires kw == "UNIQUE" || kw == "CHECK"
    ensures CalmPiece(ReferenceName(r), [kw])
  {
    if r.name.Some? {
      SpacedQuote(r.name.value, kw);
      assert Differ("CONSTRAINT", kw);
      WordThen("CONSTRAINT", " " + QuoteAnsi(r.name.value), kw);
      assert " CONSTRAINT " + QuoteAnsi(r.name.value) == " " + "CONSTRAINT" + (" " + QuoteAnsi(r.name.value));
    } else {
      EmptyCalm([kw]);
    }
  }

  lemma ActionsCalm(r: Reference, kw: string)
    requires kw == "UNIQUE" || kw == "CHECK"
    requires (r.onDelete.Some? ==> CalmPiece(r.onDelete.value, KEYWORDS))
             && (r.onUpdate.Some? ==> CalmPiece(r.onUpdate.value, KEYWORDS))
    ensures CalmPiece(DeletePart(r), [kw]) && CalmPiece(UpdatePart(r), [kw]) && CalmPiece(DeferPart(r), [kw])
  {
    hide CalmPiece;
    Nothing(kw);
    assert " ON " + "DELETE" + " " == " ON DELETE " && " ON " + "UPDATE" + " " == " ON UPDATE ";
    if r.onDelete.Some? { ActionCalm("DELETE", r.onDelete.value, kw); }
    if r.onUpdate.Some? { ActionCalm("UPDATE", r.onUpdate.value, kw); }
    DeferredCalm(kw);
  }

  lemma PartsNeutral(c: Column, r: Reference)
    ensures StartsNeutral(TypePart(c)) && StartsNeutral(NamePart(c)) && StartsNeutral(UniquePart(c))
    ensures StartsNeutral(DefaultPart(c)) && StartsNeutral(CheckPart(c))
    ensures StartsNeutral(ReferenceName(r)) && StartsNeutral(ReferenceTarget(r)) && StartsNeutral(DeletePart(r))
    ensures StartsNeutral(UpdatePart(r)) && StartsNeutral(DeferPart(r))
  {}

  lemma JoinAll(a: string, b: string, c: string, d: string, e: string, kw: string)
    requires IsWord(kw) && CalmPiece(a, [kw]) && CalmPiece(b, [kw]) && CalmPiece(c, [kw]) && CalmPiece(d, [kw])
             && CalmPiece(e, [kw])
    requires StartsNeutral(b) && StartsNeutral(c) && StartsNeutral(d) && StartsNeutral(e)
    ensures CalmPiece(a + b, [kw]) && CalmPiece(a + b + c, [kw]) && CalmPiece(a + b + c + d, [kw])
    ensures CalmPiece(a + b + c + d + e, [kw])
  {
    hide CalmPiece, StartsNeutral;
    Join(a, b, kw);
    Join(a + b, c, kw);
    Join(a + b + c, d, kw);
    Join(a + b + c + d, e, kw);
  }

  lemma ReferencesCalm(c: Column, kw: string)
    requires Renderable(c) && (kw == "UNIQUE" || kw == "CHECK")
    ensures CalmPiece(ReferencesPart(c), [kw]) && StartsNeutral(ReferencesPart(c))
  {
    hide CalmPiece, StartsNeutral, ReferenceName, ReferenceTarget, DeletePart, UpdatePart, DeferPart;
    if c.references.Some? {
      var r := c.references.value;
      ReferenceNameCalm(r, kw);
      TargetCalm(r, kw);
      ActionsCalm(r, kw);
      PartsNeutral(c, r);
      JoinAll(ReferenceName(r), ReferenceTarget(r), DeletePart(r), UpdatePart(r), DeferPart(r), kw);
      ReferenceNeutral(r);
    } else {
      Nothing(kw);
      EmptyNeutral();
    }
  }

  lemma ReferenceNeutral(r: Reference)
    ensures StartsNeutral(ReferencePart(r))
  {
    hide ReferencedTable, QuoteAnsi, DeletePart, UpdatePart, DeferPart;
    if r.name.None? {
      assert ReferenceName(r) == "" && ReferenceTarget(r)[0] == ' ';
      assert ReferencePart(r)[0] == ' ';
    } else {
      assert ReferenceName(r)[0] == ' ';
      assert ReferencePart(r)[0] == ' ';
    }
  }

  lemma EmptyNeutral()
    ensures StartsNeutral("")
  {}

  lemma Nothing(kw: string)
    ensures CalmPiece("", [kw])
  {
    EmptyCalm([kw]);
  }

  lemma UniqueCalm(c: Column, kw: string)
    requires kw == "CHECK" || kw == "CONSTRAINT"
    ensures CalmPiece(UniquePart(c), [kw])
  {
    if c.unique {
      assert Differ("UNIQUE", kw);
      WordCalm("UNIQUE", kw);
      assert " " + "UNIQUE" == " UNIQUE";
    } else {
      EmptyCalm([kw]);
    }
  }

  // ----- a keyword is found where it stands

  /** A space and the keyword stand at `p`. */
  predicate SpacedWordAt(text: string, p: nat, kw: string) {
    && p + 1 + |kw| <= |text| && text[p] == ' ' && text[p + 1..p + 1 + |kw|] == kw
    && (p + 1 + |kw| < |text| ==> !IsIdentifierChar(text[p + 1 + |kw|]))
  }

  lemma FoundHere(text: string, p: nat, kw: string)
    requires IsWord(kw) && SpacedWordAt(text, p, kw)
    ensures Keyword(text, kw, p, Plain, 0) == Some(p + 1) && KeywordAt(text, p + 1, kw)
  {
    assert Step(text, p, Plain) == (Plain, p + 1, true);
    assert forall n | 0 <= n < |kw| :: text[(p + 1) + n] == text[p + 1..p + 1 + |kw|][n] == kw[n];
    assert Upper(text[p + 0]) != Upper(kw[0]) && !KeywordAt(text, p, kw);
    assert text[p + 1] == kw[0] && IsAlpha(text[p + 1]);
    assert Step(text, p + 1, Plain) == (Plain, p + 2, true);
  }

  /** The keyword is found behind a calm piece. */
  lemma FoundBehind(text: string, p: nat, t: string, kw: string)
    requires IsWord(kw) && StandsAt(text, p, t) && CalmPiece(t, [kw]) && SpacedWordAt(text, p + |t|, kw)
    ensures Keyword(text, kw, p, Plain, 0) == Some(p + |t| + 1)
  {
    CalmInContext(text, p, t, 0, Plain, 0, [kw]);
    KeywordPasses(text, p, Plain, 0, p + |t|, [kw], kw);
    FoundHere(text, p + |t|, kw);
  }

  /** Calm to the end, there is no keyword to be found. */
  lemma NotFound(text: string, p: nat, t: string, kw: string)
    requires IsWord(kw) && StandsAt(text, p, t) && CalmPiece(t, [kw]) && p + |t| == |text|
    ensures Keyword(text, kw, p, Plain, 0) == None
  {
    CalmInContext(text, p, t, 0, Plain, 0, [kw]);
    KeywordPasses(text, p, Plain, 0, p + |t|, [kw], kw);
  }

  /** Where a piece stands in a concatenation. */
  lemma StandsBetween(a: string, t: string, b: string)
    requires StartsNeutral(b)
    ensures StandsAt(a + t + b, |a|, t)
  {
    assert (a + t + b)[|a|..|a| + |t|] == t;
  }
}
