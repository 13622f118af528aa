/** The round trip of a whole table. */
module DdlWhole {
  import opened Wrappers
  import opened Decimals
  import opened DdlScanner
  import opened DdlCalm
  import opened DdlColumns
  import opened DdlRoundTrip
  import opened DdlTables
  import opened DdlTrims

  // ----- one segment

  /** A rendered column as the splitter gives it back: without white space at its end. */
  function Segment(c: Column): string { TrimRight(Rendered(c)) }

  /** The end of the segment, behind the name. */
  lemma SegmentCut(c: Column) returns (n: nat)
    ensures OnlySpace(Rendered(c), n) && Segment(c) == Rendered(c)[..n] && |QuoteAnsi(c.name)| <= n
    ensures n > 0 && Segment(c)[0] == '"'
  {
    StartsSpaced(c);
    n := TrimRightCuts(Rendered(c));
    var s, q := Rendered(c), QuoteAnsi(c.name);
    hide Rendered;
    assert s[|q| - 1] == q[|q| - 1] == '"' && s[0] == q[0] == '"';
  }

  lemma NoLeadingKeyword(t: string)
    requires t != [] && t[0] == '"'
    ensures Leading(t) == (false, None, 0) && !KeywordAt(t, 0, "UNIQUE") && !KeywordAt(t, 0, "CHECK")
  {
    assert SkipSpaces(t, 0) == 0;
    assert Upper(t[0 + 0]) == '"';
    assert Upper("UNIQUE"[0]) == 'U' && Upper("CHECK"[0]) == 'C' && Upper("CONSTRAINT"[0]) == 'C';
  }

  /** What a rendered column says about UNIQUE is what the column has. */
  lemma SegmentUnique(columns: seq<Column>, c: Column)
    requires Renderable(c)
    ensures UniqueFrom(columns, Segment(c)) == if c.unique then WithUnique(columns, c.name, c.uniqueName) else columns
  {
    hide Rendered, Keyword, ConstraintName, ReadIdentifier, Leading, QuoteAnsi, TypePart, NamePart, WithUnique, Segment,
         Renderable;
    var n := SegmentCut(c);
    var s, t, q := Rendered(c), Segment(c), QuoteAnsi(c.name);
    NoLeadingKeyword(t);
    NameReads(c);
    IdentifierCut(s, n, 0);
    assert IsWord("UNIQUE");
    WordsCut(s, n, |q|, Plain, 0, "UNIQUE");
    UniqueFound(c);
    if c.unique {
      ConstraintOf(c);
      ConstraintCut(s, n, 0, Keyword(t, "UNIQUE", |q|, Plain, 0).value);
    }
  }

  lemma SegmentCheck(columns: seq<Column>, checks: seq<Check>, c: Column)
    requires Renderable(c) && FindColumn(columns, c.name).Some?
    ensures CheckFrom(columns, checks, Segment(c))
         == (if c.check.Some?
             then
               var i := FindColumn(columns, c.name).value;
               columns[i := columns[i].(check := Some(Trim(c.check.value)))]
             else columns, checks)
  {
    hide Rendered, Keyword, CheckExpression, ReadIdentifier, Leading, QuoteAnsi, Trim, FindColumn, Segment, Renderable;
    var n := SegmentCut(c);
    var s, t, q := Rendered(c), Segment(c), QuoteAnsi(c.name);
    NoLeadingKeyword(t);
    NameReads(c);
    IdentifierCut(s, n, 0);
    assert IsWord("CHECK");
    WordsCut(s, n, |q|, Plain, 0, "CHECK");
    CheckFound(c);
    var at := Keyword(t, "CHECK", |q|, Plain, 0);
    KeywordFits(t, "CHECK", |q|, Plain, 0);
    if at.Some? { CheckCut(s, n, at.value); }
  }

  // ----- all segments

  ghost predicate NamesApart(cs: seq<Column>) {
    forall i, j | 0 <= i < j < |cs| :: cs[i].name != cs[j].name
  }

  lemma {:induction false} FindsOwn(cs: seq<Column>, i: nat, name: string)
    requires NamesApart(cs) && i < |cs| && cs[i].name == name
    ensures FindColumn(cs, name) == Some(i)
  {
    if i > 0 {
      assert cs[1..][i - 1] == cs[i];
      FindsOwn(cs[1..], i - 1, name);
    }
  }

  function Renders(cs: seq<Column>): (ss: seq<string>)
    ensures |ss| == |cs| && forall i | 0 <= i < |cs| :: ss[i] == Rendered(cs[i])
  {
    seq(|cs|, i requires 0 <= i < |cs| => Rendered(cs[i]))
  }

  function Segments(cs: seq<Column>): (ss: seq<string>)
    ensures |ss| == |cs| && forall i | 0 <= i < |cs| :: ss[i] == Segment(cs[i])
  {
    seq(|cs|, i requires 0 <= i < |cs| => Segment(cs[i]))
  }

  /** The columns of which the first `u` have their UNIQUE and the first `k` their CHECK. */
  function Known(cs: seq<Column>, u: nat, k: nat): (ks: seq<Column>)
    ensures |ks| == |cs|
    ensures forall i | 0 <= i < |cs| ::
              ks[i] == cs[i].(unique := i < u && cs[i].unique,
                              uniqueName := if i < u && cs[i].unique then cs[i].uniqueName else None,
                              check := if i < k && cs[i].check.Some? then Some(Trim(cs[i].check.value)) else None)
  {
    seq(|cs|, i requires 0 <= i < |cs| =>
      cs[i].(unique := i < u && cs[i].unique,
             uniqueName := if i < u && cs[i].unique then cs[i].uniqueName else None,
             check := if i < k && cs[i].check.Some? then Some(Trim(cs[i].check.value)) else None))
  }

  lemma {:induction false} AllUnique(cs: seq<Column>, u: nat)
    requires NamesApart(cs) && u <= |cs| && forall i | 0 <= i < |cs| :: Renderable(cs[i])
    ensures UniqueFromAll(Known(cs, u, 0), Segments(cs)[u..]) == Known(cs, |cs|, 0)
    decreases |cs| - u
  {
    hide UniqueFrom, Segment, Renderable;
    if u < |cs| {
      var known := Known(cs, u, 0);
      assert Segments(cs)[u..][0] == Segment(cs[u]) && Segments(cs)[u..][1..] == Segments(cs)[u + 1..];
      SegmentUnique(known, cs[u]);
      FindsOwn(known, u, cs[u].name);
      assert UniqueFrom(known, Segment(cs[u])) == Known(cs, u + 1, 0);
      AllUnique(cs, u + 1);
    }
  }

  lemma KnownCheck(cs: seq<Column>, k: nat)
    requires k < |cs|
    ensures var known := Known(cs, |cs|, k);
            Known(cs, |cs|, k + 1)
            == if cs[k].check.Some? then known[k := known[k].(check := Some(Trim(cs[k].check.value)))] else known
  {
    hide Trim;
    var now, known := Known(cs, |cs|, k + 1), Known(cs, |cs|, k);
    assert forall i | 0 <= i < |cs| && i != k :: now[i] == known[i];
  }

  lemma {:induction false} AllChecks(cs: seq<Column>, k: nat)
    requires NamesApart(cs) && k <= |cs| && forall i | 0 <= i < |cs| :: Renderable(cs[i])
    ensures CheckFromAll(Known(cs, |cs|, k), [], Segments(cs)[k..]) == (Known(cs, |cs|, |cs|), [])
    decreases |cs| - k
  {
    hide CheckFrom, Segment, Renderable, Trim, FindColumn;
    if k < |cs| {
      var known := Known(cs, |cs|, k);
      assert Segments(cs)[k..][0] == Segment(cs[k]) && Segments(cs)[k..][1..] == Segments(cs)[k + 1..];
      FindsOwn(known, k, cs[k].name);
      SegmentCheck(known, [], cs[k]);
      KnownCheck(cs, k);
      AllChecks(cs, k + 1);
    }
  }

  // ----- splitting the body

  function Joined(segments: seq<string>): string {
    if segments == [] then "" else if |segments| == 1 then segments[0] else segments[0] + ", " + Joined(segments[1..])
  }

  /** A segment that the scan passes, and that does not begin with white space. */
  predicate Whole(s: string) {
    CalmPiece(s, []) && s != [] && !IsSpace(s[0])
  }

  function Trimmed(segments: seq<string>): (ts: seq<string>)
    ensures |ts| == |segments| && forall i | 0 <= i < |ts| :: ts[i] == TrimRight(segments[i])
  {
    seq(|segments|, i requires 0 <= i < |segments| => TrimRight(segments[i]))
  }

  lemma TrimWhole(s: string, spaced: bool)
    requires s != [] && !IsSpace(s[0])
    ensures Trim((if spaced then " " else "") + s) == TrimRight(s)
  {
    assert "" + s == s;
    assert (" " + s)[1..] == s;
    assert TrimLeft(s) == s && TrimLeft(" " + s) == TrimLeft(s);
  }

  /** The split cuts at exactly the commas between the segments. */
  lemma {:induction false} SplitsAtCommas(body: string, start: nat, p: nat, segments: seq<string>)
    requires segments != [] && forall i | 0 <= i < |segments| :: Whole(segments[i])
    requires start <= p <= |body| && body[p..] == Joined(segments)
    requires start == p || (start + 1 == p && body[start] == ' ')
    ensures Pieces(body, start, Commas(body, p, Plain, 0)) == Trimmed(segments)
    decreases |segments|
  {
    hide CalmPiece, Commas, Pieces, Trim, TrimRight;
    var s := segments[0];
    var end := p + |s|;
    TrimWhole(s, start != p);
    if |segments| == 1 {
      LastSegment(body, start, p, s);
      assert Trimmed(segments) == [TrimRight(s)];
    } else {
      var rest := Joined(segments[1..]);
      CommaBehind(body, p, s, rest);
      SegmentEnds(body, p, s);
      assert forall i | 0 <= i < |segments[1..]| :: segments[1..][i] == segments[i + 1];
      SplitsAtCommas(body, end + 1, end + 2, segments[1..]);
      CommaEnds(body, start, end, Commas(body, end + 2, Plain, 0));
      PieceIs(body, start, p, s);
      assert Trimmed(segments) == [TrimRight(s)] + Trimmed(segments[1..]);
    }
  }

  lemma PieceIs(body: string, start: nat, p: nat, s: string)
    requires start <= p && p + |s| <= |body| && body[p..p + |s|] == s
    requires start == p || (start + 1 == p && body[start] == ' ')
    ensures body[start..p + |s|] == (if start != p then " " else "") + s
  {
    if start != p { assert body[start..p + |s|] == [body[start]] + body[p..p + |s|]; }
  }

  lemma CommaBehind(body: string, p: nat, s: string, rest: string)
    requires p <= |body| && body[p..] == s + ", " + rest
    ensures p + |s| + 2 <= |body| && body[p..p + |s|] == s && body[p + |s|] == ',' && body[p + |s| + 1] == ' '
    ensures body[p + |s| + 2..] == rest
  {
    var t := s + ", " + rest;
    assert body[p..][..|s|] == s && body[p..][|s|] == ',' && body[p..][|s| + 1] == ' ';
    assert t[|s| + 2..] == rest && body[p..][|s| + 2..] == body[p + |s| + 2..];
  }

  /** A scan passes a segment and then sees the comma behind it. */
  lemma SegmentEnds(body: string, p: nat, s: string)
    requires CalmPiece(s, []) && p + |s| + 1 < |body| && body[p..p + |s|] == s
    requires body[p + |s|] == ',' && body[p + |s| + 1] == ' '
    ensures Commas(body, p, Plain, 0) == [p + |s|] + Commas(body, p + |s| + 2, Plain, 0)
  {
    var end := p + |s|;
    assert StandsAt(body, p, s);
    CalmInContext(body, p, s, 0, Plain, 0, []);
    CommasPass(body, p, Plain, 0, end, []);
    assert Step(body, end, Plain) == (Plain, end + 1, true);
    assert Step(body, end + 1, Plain) == (Plain, end + 2, true);
    CommasStep(body, end + 1, Plain, 0);
    CommasStep(body, end, Plain, 0);
  }

  lemma SegmentIsLast(body: string, p: nat, s: string)
    requires CalmPiece(s, []) && p + |s| == |body| && body[p..p + |s|] == s
    ensures Commas(body, p, Plain, 0) == []
  {
    assert StandsAt(body, p, s);
    CalmInContext(body, p, s, 0, Plain, 0, []);
    CommasPass(body, p, Plain, 0, |body|, []);
  }

  lemma LastSegment(body: string, start: nat, p: nat, s: string)
    requires CalmPiece(s, []) && start <= p <= |body| && body[p..] == s
    requires start == p || (start + 1 == p && body[start] == ' ')
    requires Trim((if start != p then " " else "") + s) == TrimRight(s)
    ensures Pieces(body, start, Commas(body, p, Plain, 0)) == [TrimRight(s)]
  {
    hide CalmPiece, Trim, TrimRight;
    assert p + |s| == |body| && body[p..p + |s|] == s;
    SegmentIsLast(body, p, s);
    assert body[start..] == (if start != p then " " else "") + s;
  }

  // ----- rendered columns are whole segments

  lemma CalmAnyway(t: string, kw: string)
    requires CalmPiece(t, [kw])
    ensures CalmPiece(t, [])
  {
    CalmForFewer(t, 0, Plain, 0, |t|, [kw], []);
  }

  lemma JoinAnyway(a: string, b: string)
    requires CalmPiece(a, []) && CalmPiece(b, []) && StartsNeutral(b)
    ensures CalmPiece(a + b, [])
  {
    CalmJoin(a, b, []);
  }

  lemma PartsCalm(c: Column)
    requires Renderable(c)
    ensures CalmPiece(TypePart(c), []) && CalmPiece(NamePart(c), []) && CalmPiece(UniquePart(c), [])
    ensures CalmPiece(DefaultPart(c), []) && CalmPiece(CheckPart(c), []) && CalmPiece(ReferencesPart(c), [])
  {
    hide CalmPiece, TypePart, NamePart, UniquePart, DefaultPart, CheckPart, ReferencesPart, Renderable;
    TypeCalm(c, "UNIQUE");
    NameCalm(c, "UNIQUE");
    UniqueCalm(c, "CHECK");
    DefaultCalm(c, "UNIQUE");
    CheckCalm(c);
    ReferencesCalm(c, "UNIQUE");
    CalmAnyway(TypePart(c), "UNIQUE");
    CalmAnyway(NamePart(c), "UNIQUE");
    CalmAnyway(UniquePart(c), "CHECK");
    CalmAnyway(DefaultPart(c), "UNIQUE");
    CalmAnyway(CheckPart(c), "UNIQUE");
    CalmAnyway(ReferencesPart(c), "UNIQUE");
  }

  lemma RenderedIsWhole(c: Column)
    requires Renderable(c)
    ensures Whole(Rendered(c))
  {
    hide CalmPiece, TypePart, NamePart, UniquePart, DefaultPart, CheckPart, ReferencesPart, Renderable, StartsNeutral;
    var q, t, n, u := QuoteAnsi(c.name), TypePart(c), NamePart(c), UniquePart(c);
    var d, f, g := DefaultPart(c), CheckPart(c), ReferencesPart(c);
    PartsCalm(c);
    PartsNeutralHere(c);
    QuotedIsCalm(c.name, []);
    JoinAnyway(q, t);
    JoinAnyway(q + t, n);
    JoinAnyway(q + t + n, u);
    JoinAnyway(q + t + n + u, d);
    JoinAnyway(q + t + n + u + d, f);
    JoinAnyway(q + t + n + u + d + f, g);
    StartsSpaced(c);
    WholeIs(Rendered(c), AfterName(c), c.name);
  }

  lemma WholeIs(s: string, rest: string, id: string)
    requires CalmPiece(s, []) && s == QuoteAnsi(id) + rest
    ensures Whole(s)
  {
    hide CalmPiece;
    assert QuoteAnsi(id)[0] == '"' && s[0] == '"';
  }

  // ----- the body as a whole

  lemma PrefixedBalanced(c: char, t: string)
    requires BalancedPiece(t) && Neutral(c) && c != '(' && c != ')' && c != '['
    ensures BalancedPiece([c] + t)
  {
    var text := [c] + t;
    assert text[1..1 + |t|] == t;
    assert Step(text, 0, Plain) == (Plain, 1, true);
    BalancedInContext(text, 1, t, 0, Plain, 0);
  }

  lemma BalancedJoin(a: string, b: string)
    requires BalancedPiece(a) && BalancedPiece(b) && StartsNeutral(b)
    ensures BalancedPiece(a + b)
  {
    assert StandsAt(a + b, 0, a) && StandsAt(a + b, |a|, b);
    BalancedInContext(a + b, 0, a, 0, Plain, 0);
    BalancedInContext(a + b, |a|, b, 0, Plain, 0);
    BalancedThen(a + b, 0, Plain, 0, |a|, |a + b|);
  }

  lemma {:induction false} BodyBalanced(segments: seq<string>)
    requires forall i | 0 <= i < |segments| :: Whole(segments[i])
    ensures BalancedPiece(Joined(segments))
    decreases |segments|
  {
    hide CalmPiece, BalancedPiece;
    if segments == [] {
      NothingBalanced();
    } else {
      var s := segments[0];
      WholeIsBalanced(s);
      if |segments| > 1 {
        var rest := Joined(segments[1..]);
        assert forall i | 0 <= i < |segments[1..]| :: segments[1..][i] == segments[i + 1];
        BodyBalanced(segments[1..]);
        PrefixedBalanced(' ', rest);
        PrefixedBalanced(',', [' '] + rest);
        BalancedJoin(s, [','] + ([' '] + rest));
        assert s + ", " + rest == s + ([','] + ([' '] + rest));
      }
    }
  }

  lemma NothingBalanced()
    ensures BalancedPiece("")
  {}

  lemma WholeIsBalanced(s: string)
    requires Whole(s)
    ensures BalancedPiece(s)
  {
    CalmIsBalanced(s, 0, Plain, 0, |s|, []);
  }

  // ----- the head of the statement

  predicate NoMarks(words: string) {
    forall i | 0 <= i < |words| :: !IsQuote(words[i]) && words[i] != '[' && words[i] != '('
  }

  lemma {:induction false} PassesWords(text: string, i: nat, j: nat)
    requires i <= j <= |text| && NoMarks(text[i..j])
    ensures FirstOpen(text, i, Plain) == FirstOpen(text, j, Plain)
    decreases j - i
  {
    if i < j {
      assert text[i..j][0] == text[i] && text[i + 1..j] == text[i..j][1..];
      PassesWords(text, i + 1, j);
    }
  }

  lemma {:induction false} PassesQuoted(text: string, p: nat, id: string)
    requires p + |Doubled(id)| + 1 < |text| && text[p..p + |Doubled(id)|] == Doubled(id)
    requires text[p + |Doubled(id)|] == '"' && text[p + |Doubled(id)| + 1] != '"'
    ensures FirstOpen(text, p, Quoted('"')) == FirstOpen(text, p + |Doubled(id)| + 1, Plain)
    decreases |id|
  {
    if id != [] {
      var n, w := |Doubled(id)|, if id[0] == '"' then 2 else 1;
      var d := Doubled(id);
      assert forall k | 0 <= k < n :: text[p + k] == text[p..p + n][k] == d[k];
      assert d[w..] == Doubled(id[1..]);
      assert text[p + w..p + n] == text[p..p + n][w..];
      assert text[p] == d[0] && (w == 2 ==> text[p + 1] == d[1]);
      PassesQuoted(text, p + w, id[1..]);
    }
  }

  /** The first parenthesis is the one behind the name of the table, whatever that name is. */
  lemma HeadOpens(words: string, table: string, rest: string)
    requires NoMarks(words)
    ensures FirstOpen(words + QuoteAnsi(table) + " (" + rest, 0, Plain) == Some(|words + QuoteAnsi(table)| + 1)
  {
    hide FirstOpen, Doubled;
    var d := Doubled(table);
    var text, p, n := words + QuoteAnsi(table) + " (" + rest, |words|, |d|;
    HeadParts(words, d, rest);
    PassesWords(text, 0, p);
    OpensQuote(text, p);
    PassesQuoted(text, p + 1, table);
    OpensAt(text, p + n + 2);
  }

  lemma HeadParts(words: string, d: string, rest: string)
    ensures var text, p, n := words + ("\"" + d + "\"") + " (" + rest, |words|, |d|;
            && p + n + 3 < |text| && text[0..p] == words && text[p] == '"' && text[p + 1..p + 1 + n] == d
            && text[p + 1 + n] == '"' && text[p + n + 2] == ' ' && text[p + n + 3] == '('
  {
    var q := "\"" + d + "\"";
    var text, p, n := words + q + " (" + rest, |words|, |d|;
    assert text[p..p + n + 2] == q && q[1..n + 1] == d;
    assert text[p + 1..p + 1 + n] == text[p..p + n + 2][1..n + 1];
    assert text[p] == q[0] && text[p + 1 + n] == q[n + 1];
  }

  lemma OpensQuote(text: string, p: nat)
    requires p < |text| && text[p] == '"'
    ensures FirstOpen(text, p, Plain) == FirstOpen(text, p + 1, Quoted('"'))
  {}

  lemma OpensAt(text: string, i: nat)
    requires i + 1 < |text| && text[i] == ' ' && text[i + 1] == '('
    ensures FirstOpen(text, i, Plain) == Some(i + 1)
  {}

  // ----- the whole table

  function TableSql(words: string, table: string, cs: seq<Column>, rest: string): string {
    words + QuoteAnsi(table) + " (" + (Joined(Renders(cs)) + ")" + rest)
  }

  /** The segments of the body are the rendered columns. */
  lemma BodyIsColumns(words: string, table: string, cs: seq<Column>, rest: string)
    requires NoMarks(words) && cs != [] && forall i | 0 <= i < |cs| :: Renderable(cs[i])
    ensures TableBody(TableSql(words, table, cs, rest)) == Segments(cs)
  {
    hide Rendered, Renderable, QuoteAnsi, FirstOpen, Whole, BalancedPiece, Joined, MatchingParen;
    var ss, body := Renders(cs), Joined(Renders(cs));
    forall i | 0 <= i < |ss|
      ensures Whole(ss[i])
    {
      RenderedIsWhole(cs[i]);
    }
    BodyBalanced(ss);
    HeadOpens(words, table, body + ")" + rest);
    var sql, open := TableSql(words, table, cs, rest), |words + QuoteAnsi(table)| + 1;
    var head := words + QuoteAnsi(table) + " (";
    assert sql == head + body + (")" + rest) && |head| == open + 1;
    Sub(head, body, ")" + rest);
    assert sql[open + 1 + |body|] == ')' && sql[open] == head[open] == '(';
    ParenthesisMatches(sql, open, body);
    assert body[0..] == body;
    SplitsAtCommas(body, 0, 0, ss);
    assert Trimmed(ss) == Segments(cs);
  }

  /** Rendering a table and parsing its text gives back every column's name, UNIQUE, the name of that
      constraint, and the trimmed condition of CHECK. */
  lemma TableReadsBack(words: string, table: string, cs: seq<Column>, rest: string)
    requires NoMarks(words) && cs != [] && NamesApart(cs) && forall i | 0 <= i < |cs| :: Renderable(cs[i])
    ensures UniqueFromAll(Known(cs, 0, 0), TableBody(TableSql(words, table, cs, rest))) == Known(cs, |cs|, 0)
    ensures CheckFromAll(Known(cs, |cs|, 0), [], TableBody(TableSql(words, table, cs, rest)))
            == (Known(cs, |cs|, |cs|), [])
  {
    BodyIsColumns(words, table, cs, rest);
    hide Known, UniqueFromAll, CheckFromAll, TableBody, Renderable;
    assert Segments(cs)[0..] == Segments(cs);
    AllUnique(cs, 0);
    AllChecks(cs, 0);
  }

  /** Columns rendered one by one and joined as a table body; and, from that text, the columns as the pragma queries
      give them, completed. */
  method Introspect(words: string, name: string, cs: seq<Column>, rest: string) returns (table: DatabaseTable)
    requires NoMarks(words) && cs != [] && NamesApart(cs) && forall i | 0 <= i < |cs| :: Renderable(cs[i])
    ensures table.columns == Known(cs, |cs|, |cs|) && table.checks == []
  {
    var body := "";
    for i := 0 to |cs|
      invariant body + JoinedFrom(cs, i) == Joined(Renders(cs))
    {
      var definition := RenderColumnDefinition(cs[i]);
      JoinedStep(cs, i, body);
      if i > 0 { body := body + ", "; }
      body := body + definition;
    }
    assert body + "" == body;
    var quoted := QuoteAnsiIdentifier(name);
    var sql := words + quoted + " (" + (body + ")" + rest);
    table := new DatabaseTable(Known(cs, 0, 0));
    TableReadsBack(words, name, cs, rest);
    table.ParseUniqueConstraints(sql);
    table.ParseCheckConstraints(sql);
  }

  /** What is still to come behind the first `i` columns. */
  function JoinedFrom(cs: seq<Column>, i: nat): string
    requires i <= |cs|
  {
    if i == |cs| then "" else (if i == 0 then "" else ", ") + Joined(Renders(cs)[i..])
  }

  lemma JoinedStep(cs: seq<Column>, i: nat, body: string)
    requires i < |cs|
    ensures body + JoinedFrom(cs, i) == (if i > 0 then body + ", " else body) + Rendered(cs[i]) + JoinedFrom(cs, i + 1)
  {
    hide Rendered, Joined;
    var ss := Renders(cs)[i..];
    assert ss[0] == Rendered(cs[i]) && ss[1..] == Renders(cs)[i + 1..];
    JoinedFirst(ss);
    RegroupFour(body, if i > 0 then ", " else "", Rendered(cs[i]), JoinedFrom(cs, i + 1));
    if i == 0 { assert body + "" == body; }
  }

  lemma JoinedFirst(ss: seq<string>)
    requires ss != []
    ensures Joined(ss) == ss[0] + (if |ss| == 1 then "" else ", " + Joined(ss[1..]))
  {
    if |ss| == 1 { assert ss[0] + "" == ss[0]; } else { RegroupFour([], ss[0], ", ", Joined(ss[1..])); }
  }

  lemma RegroupFour(a: string, b: string, c: string, d: string)
    ensures a + (b + (c + d)) == a + b + c + d && b + (c + d) == b + c + d
  {}
}
