/** Constraints of a table as a whole, rendered and read back. */
module DdlConstraints {
  import opened Wrappers
  import opened Decimals
  import opened DdlScanner
  import opened DdlCalm
  import opened DdlColumns
  import opened DdlTables

  function NameClause(name: Option<string>): string {
    if name.Some? then "CONSTRAINT " + QuoteAnsi(name.value) + " " else ""
  }

  /** Names in quotes, with commas between them. */
  function NameList(names: seq<string>): string {
    if names == [] then "" else if |names| == 1 then QuoteAnsi(names[0])
    else QuoteAnsi(names[0]) + ", " + NameList(names[1..])
  }

  function UniqueConstraint(name: Option<string>, columns: seq<string>): string {
    NameClause(name) + "UNIQUE (" + NameList(columns) + ")"
  }

  function CheckConstraint(name: Option<string>, condition: string): string {
    NameClause(name) + "CHECK (" + condition + ")"
  }

  // ----- the beginning of a constraint

  lemma WordStands(text: string, p: nat, word: string)
    requires p + |word| < |text| && text[p..p + |word|] == word && text[p + |word|] == ' '
    requires p > 0 ==> text[p - 1] == ' '
    ensures KeywordAt(text, p, word)
  {
    forall i | 0 <= i < |word|
      ensures Upper(text[p + i]) == Upper(word[i])
    {
      assert text[p + i] == text[p..p + |word|][i];
    }
  }

  /** Where the name of a constraint and its keyword stand. */
  lemma NamedShape(q: string, word: string, rest: string)
    ensures var s, p := "CONSTRAINT " + q + " " + word + " " + rest, 12 + |q|;
            && |s| == p + |word| + 1 + |rest| && s[0..10] == "CONSTRAINT" && s[10] == ' ' && s[11..11 + |q|] == q
            && s[p - 1] == ' ' && s[p..p + |word|] == word && s[p + |word|] == ' ' && s[p + |word| + 1..] == rest
  {
    var s, p := "CONSTRAINT " + q + " " + word + " " + rest, 12 + |q|;
    Sub("CONSTRAINT ", q, " " + word + " " + rest);
    assert s == "CONSTRAINT " + q + (" " + word + " " + rest);
    Sub("CONSTRAINT " + q + " ", word, " " + rest);
    assert s == "CONSTRAINT " + q + " " + word + (" " + rest);
  }

  /** What comes first is read as the name of the constraint, and the keyword is found behind. */
  lemma NameComesFirst(s: string, id: string, word: string)
    requires (word == "UNIQUE" || word == "CHECK") && 12 + |QuoteAnsi(id)| + |word| < |s|
    requires var q, p := QuoteAnsi(id), 12 + |QuoteAnsi(id)|;
             && s[0..10] == "CONSTRAINT" && s[10] == ' ' && s[11..11 + |q|] == q
             && s[p - 1] == ' ' && s[p..p + |word|] == word && s[p + |word|] == ' '
    ensures Leading(s) == (true, Some(id), 12 + |QuoteAnsi(id)|) && KeywordAt(s, 12 + |QuoteAnsi(id)|, word)
  {
    hide QuoteAnsi, KeywordAt, ReadIdentifier, SkipSpaces;
    var p := 12 + |QuoteAnsi(id)|;
    assert s[0..10][0] == 'C' && s[p..p + |word|][0] == word[0];
    NoSpaceToSkip(s, 0);
    WordStands(s, 0, "CONSTRAINT");
    NameBehind(s, 10, id);
    SkipsOne(s, p - 1);
    WordStands(s, p, word);
  }

  lemma NoNameFirst(s: string, word: string)
    requires (word == "UNIQUE" || word == "CHECK") && |word| < |s| && s[0..|word|] == word && s[|word|] == ' '
    ensures Leading(s) == (false, None, 0) && KeywordAt(s, 0, word)
  {
    hide KeywordAt, ReadIdentifier, SkipSpaces;
    assert s[0..|word|][0] == word[0] && s[0..|word|][1] == word[1];
    NoSpaceToSkip(s, 0);
    FirstLetters(s, "CONSTRAINT");
    WordStands(s, 0, word);
  }

  lemma LeadingReads(name: Option<string>, word: string, rest: string)
    requires word == "UNIQUE" || word == "CHECK"
    ensures var s, p := NameClause(name) + word + " " + rest, |NameClause(name)|;
            && Leading(s) == (name.Some?, name, p) && KeywordAt(s, p, word)
            && |s| == p + |word| + 1 + |rest| && s[p + |word|] == ' ' && s[p + |word| + 1..] == rest
  {
    hide QuoteAnsi, KeywordAt, Leading;
    var s, p := NameClause(name) + word + " " + rest, |NameClause(name)|;
    if name.Some? {
      NamedShape(QuoteAnsi(name.value), word, rest);
      NameComesFirst(s, name.value, word);
    } else {
      assert s == word + " " + rest && s[0..|word|] == word && s[|word| + 1..] == rest;
      NoNameFirst(s, word);
    }
  }

  lemma NoSpaceToSkip(text: string, p: nat)
    requires p <= |text| && (p < |text| ==> !IsSpace(text[p]))
    ensures SkipSpaces(text, p) == p
  {}

  lemma FirstLetters(text: string, word: string)
    requires |word| > 1
    ensures KeywordAt(text, 0, word) ==>
              |text| > 1 && Upper(text[0]) == Upper(word[0]) && Upper(text[1]) == Upper(word[1])
  {
    if KeywordAt(text, 0, word) {
      assert Upper(text[0 + 0]) == Upper(word[0]) && Upper(text[0 + 1]) == Upper(word[1]);
    }
  }

  /** A quoted name behind one space, with a space behind it. */
  lemma NameBehind(text: string, p: nat, id: string)
    requires p + 1 + |QuoteAnsi(id)| < |text| && text[p] == ' ' && text[p + 1..p + 1 + |QuoteAnsi(id)|] == QuoteAnsi(id)
    requires text[p + 1 + |QuoteAnsi(id)|] != '"'
    ensures ReadIdentifier(text, p) == (Some(id), p + 1 + |QuoteAnsi(id)|)
  {
    var q := QuoteAnsi(id);
    assert text[p + 1] == q[0] == '"';
    assert SkipSpaces(text, p + 1) == p + 1 && SkipSpaces(text, p) == p + 1;
    QuotedReadsBack(text, p + 1, id);
  }

  lemma InParentheses(s: string, p: nat, t: string)
    requires p <= |s| && s[p..] == "(" + t + ")"
    ensures |s| == p + |t| + 2 && s[p] == '(' && s[p + 1 + |t|] == ')' && s[p + 1..p + 1 + |t|] == t
  {
    var u := "(" + t + ")";
    assert s[p..][0] == '(' && s[p..][1 + |t|] == ')';
    Sub("(", t, ")");
    assert s[p..][1..1 + |t|] == s[p + 1..p + 1 + |t|];
  }

  // ----- UNIQUE

  lemma QuotedIsBalanced(id: string)
    ensures BalancedPiece(QuoteAnsi(id))
  {
    hide QuoteAnsi;
    QuotedIsCalm(id, []);
    CalmIsBalanced(QuoteAnsi(id), 0, Plain, 0, |QuoteAnsi(id)|, []);
  }

  lemma {:induction false} NameListIsBalanced(names: seq<string>)
    requires names != []
    ensures BalancedPiece(NameList(names))
  {
    hide QuoteAnsi, Balanced;
    QuotedIsBalanced(names[0]);
    if |names| > 1 {
      NameListIsBalanced(names[1..]);
      CommaBetween(QuoteAnsi(names[0]), NameList(names[1..]));
    }
  }

  lemma CommaBetween(a: string, b: string)
    requires BalancedPiece(a) && BalancedPiece(b)
    ensures BalancedPiece(a + ", " + b)
  {
    var t, n := a + ", " + b, |a|;
    assert t[0..n] == a && t[n + 2..n + 2 + |b|] == b && t[n] == ',' && t[n + 1] == ' ';
    hide Balanced;
    assert StandsAt(t, 0, a) && StandsAt(t, n + 2, b);
    StillBalanced(t, n, a, b);
  }

  lemma StillBalanced(t: string, n: nat, a: string, b: string)
    requires n == |a| && |t| == n + 2 + |b| && t[n] == ',' && t[n + 1] == ' '
    requires BalancedPiece(a) && BalancedPiece(b) && StandsAt(t, 0, a) && StandsAt(t, n + 2, b)
    ensures BalancedPiece(t)
  {
    hide Balanced, StandsAt;
    BalancedInContext(t, 0, a, 0, Plain, 0);
    BalancedInContext(t, n + 2, b, 0, Plain, 0);
    OverOne(t, n + 1, |t|);
    OverOne(t, n, |t|);
    BalancedThen(t, 0, Plain, 0, n, |t|);
  }

  lemma OverOne(text: string, i: nat, j: nat)
    requires i < j <= |text| && (text[i] == ',' || text[i] == ' ') && Balanced(text, i + 1, Plain, 0, j)
    ensures Balanced(text, i, Plain, 0, j)
  {
    assert Step(text, i, Plain) == (Plain, i + 1, true);
  }

  /** A rendered UNIQUE over one column is read as that column's, under its name; one over several is not. */
  lemma UniqueReads(columns: seq<Column>, name: Option<string>, names: seq<string>)
    requires names != []
    ensures UniqueFrom(columns, UniqueConstraint(name, names))
         == if |names| == 1 then WithUnique(columns, names[0], name) else columns
  {
    hide *;
    var list := NameList(names);
    var s, p := NameClause(name) + "UNIQUE" + " " + ("(" + list + ")"), |NameClause(name)|;
    UniqueIs(name, names);
    LeadingReads(name, "UNIQUE", "(" + list + ")");
    InParentheses(s, p + 7, list);
    SpaceThenParen(s, p + 6);
    NameListIsBalanced(names);
    ParenthesisMatches(s, p + 7, list);
    FirstName(s, p + 8, names);
    var next := ReadIdentifier(s, p + 8).1;
    UniqueOfTable(columns, s, name, p, p + 8 + |list|, names[0], next);
  }

  lemma UniqueIs(name: Option<string>, names: seq<string>)
    ensures UniqueConstraint(name, names) == NameClause(name) + "UNIQUE" + " " + ("(" + NameList(names) + ")")
  {
    hide NameClause, NameList;
    var a, list := NameClause(name), NameList(names);
    assert a + "UNIQUE (" + list + ")" == a + "UNIQUE" + " " + ("(" + list + ")");
  }

  lemma SpaceThenParen(s: string, p: nat)
    requires p + 1 < |s| && s[p] == ' ' && s[p + 1] == '('
    ensures SkipSpaces(s, p) == p + 1
  {
    assert SkipSpaces(s, p + 1) == p + 1;
  }

  /** The steps of the parser on a UNIQUE of the table. */
  lemma UniqueOfTable(columns: seq<Column>, s: string, name: Option<string>, p: nat, close: nat, column: string,
                      next: nat)
    requires s != "" && p + 8 <= |s| && next <= |s|
    requires Leading(s).1 == name && Leading(s).2 == p && KeywordAt(s, p, "UNIQUE") && SkipSpaces(s, p + 6) == p + 7
    requires MatchingParen(s, p + 7) == Some(close) && ReadIdentifier(s, p + 8) == (Some(column), next)
    ensures UniqueFrom(columns, s)
         == if SkipSpaces(s, next) == close then WithUnique(columns, column, name) else columns
  {
    hide KeywordAt, ReadIdentifier, SkipSpaces, Leading, MatchingParen, WithUnique, Keyword, ConstraintName;
  }

  /** The first name of a list in parentheses, and whether the list ends behind it. */
  lemma FirstName(text: string, p: nat, names: seq<string>)
    requires names != [] && p + |NameList(names)| < |text| && text[p..p + |NameList(names)|] == NameList(names)
    requires text[p + |NameList(names)|] == ')'
    ensures var (column, next) := ReadIdentifier(text, p);
            column == Some(names[0]) && (SkipSpaces(text, next) == p + |NameList(names)| <==> |names| == 1)
  {
    hide QuoteAnsi, ReadIdentifier;
    var q, list := QuoteAnsi(names[0]), NameList(names);
    var rest := if |names| == 1 then "" else ", " + NameList(names[1..]);
    assert list == q + rest;
    hide NameList;
    NameThenRest(text, p, q, rest);
    QuotedReadsBack(text, p, names[0]);
    NoSpaceToSkip(text, p + |q|);
  }

  lemma NameThenRest(text: string, p: nat, q: string, rest: string)
    requires p + |q + rest| < |text| && text[p..p + |q + rest|] == q + rest
    ensures text[p..p + |q|] == q && (rest != [] ==> text[p + |q|] == rest[0])
  {
    var list := q + rest;
    assert text[p..p + |q|] == text[p..p + |list|][..|q|];
    if rest != [] { assert text[p..p + |list|][|q|] == rest[0]; }
  }

  // ----- CHECK

  /** A rendered CHECK is read with its name and its condition, without white space at its ends. */
  lemma CheckConstraintReads(columns: seq<Column>, checks: seq<Check>, name: Option<string>, condition: string)
    requires BalancedPiece(condition)
    ensures CheckFrom(columns, checks, CheckConstraint(name, condition))
         == (columns, checks + [Check(name, Trim(condition))])
  {
    hide *;
    var s, p := NameClause(name) + "CHECK" + " " + ("(" + condition + ")"), |NameClause(name)|;
    CheckIs(name, condition);
    LeadingReads(name, "CHECK", "(" + condition + ")");
    InParentheses(s, p + 6, condition);
    SpaceThenParen(s, p + 5);
    ParenthesisMatches(s, p + 6, condition);
    CheckOfTable(columns, checks, s, name, p, condition);
  }

  lemma CheckIs(name: Option<string>, condition: string)
    ensures CheckConstraint(name, condition) == NameClause(name) + "CHECK" + " " + ("(" + condition + ")")
  {
    hide NameClause;
    var a := NameClause(name);
    assert a + "CHECK (" + condition + ")" == a + "CHECK" + " " + ("(" + condition + ")");
  }

  lemma CheckOfTable(columns: seq<Column>, checks: seq<Check>, s: string, name: Option<string>, p: nat, t: string)
    requires |s| == p + 8 + |t| && Leading(s).1 == name && Leading(s).2 == p && KeywordAt(s, p, "CHECK")
    requires SkipSpaces(s, p + 5) == p + 6 && s[p + 6] == '(' && s[p + 7..p + 7 + |t|] == t
    requires MatchingParen(s, p + 6) == Some(p + 7 + |t|)
    ensures CheckFrom(columns, checks, s) == (columns, checks + [Check(name, Trim(t))])
  {
    hide KeywordAt, ReadIdentifier, SkipSpaces, Leading, MatchingParen, Keyword, Trim, FindColumn;
  }
}
