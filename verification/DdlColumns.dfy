/** Column definitions as they are rendered, and the table bodies that are split and parsed. */
module DdlColumns {
  import opened Wrappers
  import opened DdlScanner

  datatype Reference = Reference(name: Option<string>, schema: Option<string>, table: string, column: string,
                                 onDelete: Option<string>, onUpdate: Option<string>, deferrable: bool)

  datatype Column = Column(name: string, sqlType: string, notNull: bool, unique: bool, uniqueName: Option<string>,
                           defaultValue: Option<string>, check: Option<string>, references: Option<Reference>)

  datatype Check = Check(name: Option<string>, expression: string)

  // ----- rendering

  function TypePart(c: Column): string { " " + c.sqlType + if c.notNull then " NOT NULL" else "" }

  function NamePart(c: Column): string {
    if c.unique && c.uniqueName.Some? then " CONSTRAINT " + QuoteAnsi(c.uniqueName.value) else ""
  }

  function UniquePart(c: Column): string { if c.unique then " UNIQUE" else "" }

  function DefaultPart(c: Column): string { if c.defaultValue.Some? then " DEFAULT " + c.defaultValue.value else "" }

  function CheckPart(c: Column): string { if c.check.Some? then " CHECK (" + c.check.value + ")" else "" }

  function ReferencedTable(r: Reference): string {
    (if r.schema.Some? then QuoteAnsi(r.schema.value) + "." else "") + QuoteAnsi(r.table)
  }

  function ReferenceName(r: Reference): string { if r.name.Some? then " CONSTRAINT " + QuoteAnsi(r.name.value) else "" }

  function ReferenceTarget(r: Reference): string {
    " REFERENCES " + ReferencedTable(r) + " (" + QuoteAnsi(r.column) + ")"
  }

  function DeletePart(r: Reference): string { if r.onDelete.Some? then " ON DELETE " + r.onDelete.value else "" }

  function UpdatePart(r: Reference): string { if r.onUpdate.Some? then " ON UPDATE " + r.onUpdate.value else "" }

  function DeferPart(r: Reference): string { if r.deferrable then " DEFERRABLE INITIALLY DEFERRED" else "" }

  function ReferencePart(r: Reference): string {
    ReferenceName(r) + ReferenceTarget(r) + DeletePart(r) + UpdatePart(r) + DeferPart(r)
  }

  function ReferencesPart(c: Column): string { if c.references.Some? then ReferencePart(c.references.value) else "" }

  function Rendered(c: Column): string {
    QuoteAnsi(c.name) + TypePart(c) + NamePart(c) + UniquePart(c) + DefaultPart(c) + CheckPart(c) + ReferencesPart(c)
  }

  lemma TargetJoins(sql: string, r: Reference)
    ensures sql + " REFERENCES " + ReferencedTable(r) + " (" + QuoteAnsi(r.column) + ")" == sql + ReferenceTarget(r)
  {
    hide ReferencedTable, QuoteAnsi;
  }

  method RenderReferenceDefinition(r: Reference) returns (sql: string)
    ensures sql == ReferencePart(r)
  {
    hide QuoteAnsi, ReferenceTarget;
    sql := "";
    if r.name.Some? {
      var name := QuoteAnsiIdentifier(r.name.value);
      sql := sql + " CONSTRAINT " + name;
    }
    var table := "";
    if r.schema.Some? {
      var schema := QuoteAnsiIdentifier(r.schema.value);
      table := table + schema + ".";
    }
    var plain := QuoteAnsiIdentifier(r.table);
    table := table + plain;
    var column := QuoteAnsiIdentifier(r.column);
    assert table == ReferencedTable(r);
    assert sql == ReferenceName(r);
    ghost var before := sql;
    sql := sql + " REFERENCES " + table + " (" + column + ")";
    TargetJoins(before, r);
    before := sql;
    if r.onDelete.Some? { sql := sql + " ON DELETE " + r.onDelete.value; }
    assert sql == before + DeletePart(r);
    before := sql;
    if r.onUpdate.Some? { sql := sql + " ON UPDATE " + r.onUpdate.value; }
    assert sql == before + UpdatePart(r);
    before := sql;
    if r.deferrable { sql := sql + " DEFERRABLE INITIALLY DEFERRED"; }
    assert sql == before + DeferPart(r);
  }

  method RenderColumnDefinition(c: Column) returns (sql: string)
    ensures sql == Rendered(c)
  {
    hide QuoteAnsi, ReferencePart;
    var name := QuoteAnsiIdentifier(c.name);
    sql := name + " " + c.sqlType;
    if c.notNull { sql := sql + " NOT NULL"; }
    assert sql == QuoteAnsi(c.name) + TypePart(c);
    ghost var before := sql;
    if c.unique {
      if c.uniqueName.Some? {
        var uniqueName := QuoteAnsiIdentifier(c.uniqueName.value);
        sql := sql + " CONSTRAINT " + uniqueName;
      }
      assert sql == before + NamePart(c);
      sql := sql + " UNIQUE";
    }
    assert sql == before + NamePart(c) + UniquePart(c);
    before := sql;
    if c.defaultValue.Some? { sql := sql + " DEFAULT " + c.defaultValue.value; }
    assert sql == before + DefaultPart(c);
    before := sql;
    if c.check.Some? { sql := sql + " CHECK (" + c.check.value + ")"; }
    assert sql == before + CheckPart(c);
    if c.references.Some? {
      var reference := RenderReferenceDefinition(c.references.value);
      sql := sql + reference;
    }
  }

  // ----- splitting

  function Trim(s: string): string { TrimRight(TrimLeft(s)) }

  /** The first opening parenthesis outside of quotes and brackets. */
  function FirstOpen(text: string, i: nat, mode: Mode): (r: Option<nat>)
    requires i <= |text|
    ensures r.Some? ==> i <= r.value < |text| && text[r.value] == '('
    decreases |text| - i
  {
    if i == |text| then None
    else
      match mode
      case Quoted(q) =>
        if text[i] != q then FirstOpen(text, i + 1, mode)
        else if i + 1 < |text| && text[i + 1] == q then FirstOpen(text, i + 2, mode)
        else FirstOpen(text, i + 1, Plain)
      case Bracketed => FirstOpen(text, i + 1, if text[i] == ']' then Plain else mode)
      case _ =>
        if IsQuote(text[i]) then FirstOpen(text, i + 1, Quoted(text[i]))
        else if text[i] == '[' then FirstOpen(text, i + 1, Bracketed)
        else if text[i] == '(' then Some(i)
        else FirstOpen(text, i + 1, Plain)
  }

  predicate Within(cs: seq<nat>, start: nat, end: nat) {
    && (forall k | 0 <= k < |cs| :: start <= cs[k] < end)
    && (forall k, l | 0 <= k < l < |cs| :: cs[k] < cs[l])
  }

  /** The trimmed texts between the commas. */
  function Pieces(body: string, start: nat, cs: seq<nat>): seq<string>
    requires start <= |body| && Within(cs, start, |body|)
    decreases |cs|
  {
    if cs == [] then [Trim(body[start..])]
    else [Trim(body[start..cs[0]])] + Pieces(body, cs[0] + 1, cs[1..])
  }

  function Split(body: string): seq<string> { Pieces(body, 0, Commas(body, 0, Plain, 0)) }

  /** The parts of the body of a table: none if there is no body. */
  function TableBody(sql: string): seq<string> {
    match FirstOpen(sql, 0, Plain)
    case None => []
    case Some(open) =>
      match MatchingParen(sql, open)
      case None => []
      case Some(close) => Split(sql[open + 1..close])
  }

  method FindOpen(text: string) returns (r: Option<nat>)
    ensures r == FirstOpen(text, 0, Plain)
  {
    var i, mode := 0, Plain;
    while i < |text|
      invariant i <= |text| && FirstOpen(text, i, mode) == FirstOpen(text, 0, Plain)
      invariant mode.Plain? || mode.Quoted? || mode.Bracketed?
      decreases |text| - i
    {
      var ch := text[i];
      if mode.Quoted? {
        if ch == mode.q {
          if i + 1 < |text| && text[i + 1] == mode.q { i := i + 1; } else { mode := Plain; }
        }
      } else if mode.Bracketed? {
        if ch == ']' { mode := Plain; }
      } else if IsQuote(ch) {
        mode := Quoted(ch);
      } else if ch == '[' {
        mode := Bracketed;
      } else if ch == '(' {
        return Some(i);
      }
      i := i + 1;
    }
    return None;
  }

  method SplitTableBody(sql: string) returns (result: seq<string>)
    ensures result == TableBody(sql)
  {
    hide FirstOpen, Closing, Split;
    var open := FindOpen(sql);
    if open.None? { return []; }
    var close := FindMatchingParen(sql, open.value);
    if close.None? { return []; }
    result := SplitBody(sql[open.value + 1..close.value]);
  }

  method SplitBody(body: string) returns (result: seq<string>)
    ensures result == Split(body)
  {
    hide Step, Pieces, Trim, TrimLeft, TrimRight;
    result := [];
    var start, i, depth, mode := 0, 0, 0, Plain;
    assert [] + Split(body) == Split(body);
    while i < |body|
      invariant start <= i <= |body| && depth >= 0
      invariant result + Pieces(body, start, Commas(body, i, mode, depth)) == Split(body)
      decreases |body| - i
    {
      var (mode', i', plain) := Step(body, i, mode);
      CommasStep(body, i, mode, depth);
      if plain && body[i] == '(' {
        depth := depth + 1;
      } else if plain && body[i] == ')' && depth > 0 {
        depth := depth - 1;
      } else if plain && body[i] == ',' && depth == 0 {
        var piece := TrimSqlView(body[start..i]);
        CommaEnds(body, start, i, Commas(body, i + 1, Plain, 0));
        TrimIs(body[start..i]);
        OnePiece(result, piece, Pieces(body, i + 1, Commas(body, i + 1, Plain, 0)));
        result := result + [piece];
        start := i + 1;
      }
      mode, i := mode', i';
    }
    var last := TrimSqlView(body[start..]);
    TrimIs(body[start..]);
    LastPiece(body, start, mode, depth);
    result := result + [last];
  }

  lemma TrimIs(s: string)
    ensures Trim(s) == TrimRight(TrimLeft(s))
  {}

  lemma OnePiece(result: seq<string>, piece: string, rest: seq<string>)
    ensures result + ([piece] + rest) == result + [piece] + rest
  {}

  lemma LastPiece(body: string, start: nat, mode: Mode, depth: nat)
    requires start <= |body|
    ensures Commas(body, |body|, mode, depth) == []
    ensures Within([], start, |body|) && Pieces(body, start, []) == [Trim(body[start..])]
  {}

  lemma CommasStep(text: string, i: nat, mode: Mode, depth: nat)
    requires i < |text|
    ensures var (mode', i', plain) := Step(text, i, mode);
            Commas(text, i, mode, depth)
            == (if plain && text[i] == ',' && depth == 0 then [i] else [])
               + Commas(text, i', mode', Depth(depth, plain, text[i]))
    ensures var (mode', i', plain) := Step(text, i, mode);
            !(plain && text[i] == ',' && depth == 0) ==>
              Commas(text, i, mode, depth) == Commas(text, i', mode', Depth(depth, plain, text[i]))
  {
    hide Step;
    var (mode', i', plain) := Step(text, i, mode);
    var rest := Commas(text, i', mode', Depth(depth, plain, text[i]));
    assert [] + rest == rest;
  }

  lemma CommaEnds(body: string, start: nat, i: nat, rest: seq<nat>)
    requires start <= i < |body| && Within(rest, i + 1, |body|)
    ensures Within([i] + rest, start, |body|)
    ensures Pieces(body, start, [i] + rest) == [Trim(body[start..i])] + Pieces(body, i + 1, rest)
  {
    assert ([i] + rest)[1..] == rest;
  }

  // ----- parsing

  /** The text of the condition in the parentheses after the keyword. */
  function CheckExpression(segment: string, checkPos: nat): Option<string>
    requires checkPos + 5 <= |segment|
  {
    var pos := SkipSpaces(segment, checkPos + 5);
    if pos >= |segment| || segment[pos] != '(' then None
    else
      match MatchingParen(segment, pos)
      case None => None
      case Some(close) => Some(Trim(segment[pos + 1..close]))
  }

  method ExtractCheckExpression(segment: string, checkPos: nat) returns (r: Option<string>)
    requires checkPos + 5 <= |segment|
    ensures r == CheckExpression(segment, checkPos)
  {
    var pos := SkipSqlSpace(segment, checkPos + 5);
    if pos >= |segment| || segment[pos] != '(' { return None; }
    var close := FindMatchingParen(segment, pos);
    if close.None? { return None; }
    var text := TrimSqlView(segment[pos + 1..close.value]);
    return Some(text);
  }

  lemma {:induction false} KeywordFits(text: string, kw: string, i: nat, mode: Mode, depth: nat)
    requires i <= |text|
    ensures Keyword(text, kw, i, mode, depth).Some? ==> Keyword(text, kw, i, mode, depth).value + |kw| <= |text|
    decreases |text| - i
  {
    if i < |text| {
      var (mode', i', plain) := Step(text, i, mode);
      KeywordFits(text, kw, i', mode', Depth(depth, plain, text[i]));
    }
  }

  lemma KeywordEnds(text: string, pos: nat, kw: string)
    ensures KeywordAt(text, pos, kw) ==> pos + |kw| <= |text|
  {}

  /** The name of the constraint whose keyword stands at `target`. */
  function ConstraintName(text: string, search: nat, target: nat): Option<string>
    requires search <= |text| && target <= |text|
    decreases |text| - search
  {
    if search >= target then None
    else
      match Keyword(text, "CONSTRAINT", search, Plain, 0)
      case None => None
      case Some(at) =>
        KeywordFits(text, "CONSTRAINT", search, Plain, 0);
        if at >= target then None
        else
          var (name, pos) := ReadIdentifier(text, at + 10);
          if name.Some? && SkipSpaces(text, pos) == target then name else ConstraintName(text, at + 10, target)
  }

  method ConstraintNameForUnique(text: string, target: nat) returns (r: Option<string>)
    requires target <= |text|
    ensures r == ConstraintName(text, 0, target)
  {
    hide Closing, Keyword, ReadIdentifier, SkipSpaces;
    var search := 0;
    while search < target
      invariant search <= |text| && ConstraintName(text, search, target) == ConstraintName(text, 0, target)
      decreases |text| - search
    {
      var at := FindKeywordTopLevel(text, "CONSTRAINT", search);
      if at.None? || at.value >= target { return None; }
      KeywordFits(text, "CONSTRAINT", search, Plain, 0);
      var name, pos := ReadSqlIdentifier(text, at.value + 10);
      if name.Some? {
        var next := SkipSqlSpace(text, pos);
        if next == target { return name; }
      }
      search := at.value + 10;
    }
    return None;
  }

  /** The first column of the name. */
  function FindColumn(columns: seq<Column>, name: string): (r: Option<nat>)
    ensures r.Some? ==> r.value < |columns| && columns[r.value].name == name
  {
    if columns == [] then None
    else if columns[0].name == name then Some(0)
    else match FindColumn(columns[1..], name) case None => None case Some(i) => Some(i + 1)
  }

  function WithUnique(columns: seq<Column>, column: string, constraint: Option<string>): seq<Column> {
    match FindColumn(columns, column)
    case None => columns
    case Some(i) => columns[i := columns[i].(unique := true, uniqueName := constraint)]
  }

  /** The name after CONSTRAINT at the beginning of a segment, if it begins so, and the position after it. */
  function Leading(segment: string): (r: (bool, Option<string>, nat))
    ensures r.2 <= |segment|
  {
    var pos := SkipSpaces(segment, 0);
    if KeywordAt(segment, pos, "CONSTRAINT") then
      var (name, next) := ReadIdentifier(segment, pos + 10);
      (true, name, SkipSpaces(segment, next))
    else (false, None, pos)
  }

  /** What one segment says about UNIQUE. */
  function UniqueFrom(columns: seq<Column>, segment: string): seq<Column> {
    if segment == "" then columns
    else
      var (_, constraint, pos) := Leading(segment);
      if KeywordAt(segment, pos, "UNIQUE") then
        var open := SkipSpaces(segment, pos + 6);
        match MatchingParen(segment, open)
        case None => columns
        case Some(close) =>
          var (column, next) := ReadIdentifier(segment, open + 1);
          if column.Some? && SkipSpaces(segment, next) == close then WithUnique(columns, column.value, constraint)
          else columns
      else
        var (column, next) := ReadIdentifier(segment, 0);
        if column.None? then columns
        else
          match Keyword(segment, "UNIQUE", next, Plain, 0)
          case None => columns
          case Some(at) => WithUnique(columns, column.value, ConstraintName(segment, 0, at))
  }

  function UniqueFromAll(columns: seq<Column>, segments: seq<string>): seq<Column>
    decreases |segments|
  {
    if segments == [] then columns else UniqueFromAll(UniqueFrom(columns, segments[0]), segments[1..])
  }

  /** What one segment says about CHECK. */
  function CheckFrom(columns: seq<Column>, checks: seq<Check>, segment: string): (seq<Column>, seq<Check>) {
    if segment == "" then (columns, checks)
    else
      var (_, constraint, pos) := Leading(segment);
      if KeywordAt(segment, pos, "CHECK") then
        match CheckExpression(segment, pos)
        case None => (columns, checks)
        case Some(e) => (columns, checks + [Check(constraint, e)])
      else
        var (column, next) := ReadIdentifier(segment, 0);
        if column.None? || FindColumn(columns, column.value).None? then (columns, checks)
        else
          match Keyword(segment, "CHECK", next, Plain, 0)
          case None => (columns, checks)
          case Some(at) =>
            KeywordFits(segment, "CHECK", next, Plain, 0);
            var i := FindColumn(columns, column.value).value;
            match CheckExpression(segment, at)
            case None => (columns, checks)
            case Some(e) => (columns[i := columns[i].(check := Some(e))], checks)
  }

  function CheckFromAll(columns: seq<Column>, checks: seq<Check>, segments: seq<string>): (seq<Column>, seq<Check>)
    decreases |segments|
  {
    if segments == [] then (columns, checks)
    else
      var (columns', checks') := CheckFrom(columns, checks, segments[0]);
      CheckFromAll(columns', checks', segments[1..])
  }

  class DatabaseTable {
    var columns: seq<Column>
    var checks: seq<Check>

    constructor (columns: seq<Column>)
      ensures this.columns == columns && checks == []
    {
      this.columns := columns;
      checks := [];
    }

    method ApplyUnique(column: string, constraint: Option<string>)
      modifies this`columns
      ensures columns == WithUnique(old(columns), column, constraint)
    {
      var found := FindColumn(columns, column);
      if found.None? { return; }
      columns := columns[found.value := columns[found.value].(unique := true, uniqueName := constraint)];
    }

    method ParseUniqueConstraints(sql: string)
      modifies this`columns
      ensures columns == UniqueFromAll(old(columns), TableBody(sql))
    {
      var segments := SplitTableBody(sql);
      assert segments[0..] == segments;
      for i := 0 to |segments|
        invariant UniqueFromAll(columns, segments[i..]) == UniqueFromAll(old(columns), segments)
      {
        assert segments[i..][0] == segments[i] && segments[i..][1..] == segments[i + 1..];
        ParseUnique(segments[i]);
      }
    }

    method ParseUnique(segment: string)
      modifies this`columns
      ensures columns == UniqueFrom(old(columns), segment)
    {
      hide KeywordAt, Keyword, Closing, MatchingParen, ReadIdentifier, SkipSpaces, ConstraintName, CheckExpression;
      if segment == "" { return; }
      var pos := SkipSqlSpace(segment, 0);
      var constraint := None;
      KeywordEnds(segment, pos, "CONSTRAINT");
      if KeywordAt(segment, pos, "CONSTRAINT") {
        constraint, pos := ReadSqlIdentifier(segment, pos + 10);
        pos := SkipSqlSpace(segment, pos);
      }
      KeywordEnds(segment, pos, "UNIQUE");
      if KeywordAt(segment, pos, "UNIQUE") {
        pos := SkipSqlSpace(segment, pos + 6);
        var close := FindMatchingParen(segment, pos);
        if close.None? { return; }
        var column, next := ReadSqlIdentifier(segment, pos + 1);
        if column.None? { return; }
        next := SkipSqlSpace(segment, next);
        if next != close.value { return; }
        ApplyUnique(column.value, constraint);
        return;
      }
      var column, next := ReadSqlIdentifier(segment, 0);
      if column.None? { return; }
      var at := FindKeywordTopLevel(segment, "UNIQUE", next);
      if at.None? { return; }
      var name := ConstraintNameForUnique(segment, at.value);
      ApplyUnique(column.value, name);
    }

    method ParseCheckConstraints(sql: string)
      modifies this
      ensures (columns, checks) == CheckFromAll(old(columns), old(checks), TableBody(sql))
    {
      var segments := SplitTableBody(sql);
      assert segments[0..] == segments;
      for i := 0 to |segments|
        invariant CheckFromAll(columns, checks, segments[i..]) == CheckFromAll(old(columns), old(checks), segments)
      {
        assert segments[i..][0] == segments[i] && segments[i..][1..] == segments[i + 1..];
        ParseCheck(segments[i]);
      }
    }

    method ParseCheck(segment: string)
      modifies this
      ensures (columns, checks) == CheckFrom(old(columns), old(checks), segment)
    {
      hide KeywordAt, Keyword, Closing, MatchingParen, ReadIdentifier, SkipSpaces, ConstraintName, CheckExpression;
      if segment == "" { return; }
      var pos := SkipSqlSpace(segment, 0);
      var constraint := None;
      KeywordEnds(segment, pos, "CONSTRAINT");
      if KeywordAt(segment, pos, "CONSTRAINT") {
        constraint, pos := ReadSqlIdentifier(segment, pos + 10);
        pos := SkipSqlSpace(segment, pos);
      }
      KeywordEnds(segment, pos, "CHECK");
      if KeywordAt(segment, pos, "CHECK") {
        var e := ExtractCheckExpression(segment, pos);
        if e.Some? { checks := checks + [Check(constraint, e.value)]; }
        return;
      }
      var column, next := ReadSqlIdentifier(segment, 0);
      if column.None? { return; }
      var found := FindColumn(columns, column.value);
      if found.None? { return; }
      var at := FindKeywordTopLevel(segment, "CHECK", next);
      if at.None? { return; }
      KeywordFits(segment, "CHECK", next, Plain, 0);
      var e := ExtractCheckExpression(segment, at.value);
      if e.Some? { columns := columns[found.value := columns[found.value].(check := Some(e.value))]; }
    }
  }
}
