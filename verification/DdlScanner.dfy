/** Scanning SQL text: identifiers, matching parentheses, keywords and commas outside of quotes,
    brackets, comments and parentheses. */
module DdlScanner {
  import opened Wrappers
  import opened Decimals

  predicate IsIdentifierChar(c: char) { IsAlpha(c) || IsDigit(c) || c == '_' }

  function Upper(c: char): char { if 'a' <= c <= 'z' then (c as int - 32) as char else c }

  // ----- lexical modes

  datatype Mode = Plain | Quoted(q: char) | Bracketed | LineComment | BlockComment

  predicate IsQuote(c: char) { c == '\'' || c == '"' || c == '`' }

  /** The mode after the character at `i`, the position to go on at, and whether the character
      stands for itself. */
  function Step(text: string, i: nat, mode: Mode): (r: (Mode, nat, bool))
    requires i < |text|
    ensures i < r.1 <= |text|
    ensures r.2 ==> mode.Plain? && r.0.Plain? && r.1 == i + 1
  {
    var ch := text[i];
    var next := if i + 1 < |text| then text[i + 1] else '\0';
    match mode
    case LineComment => (if ch == '\n' || ch == '\r' then Plain else mode, i + 1, false)
    case BlockComment =>
      if ch == '*' && next == '/' && i + 1 < |text| then (Plain, i + 2, false) else (mode, i + 1, false)
    case Quoted(q) =>
      if ch != q then (mode, i + 1, false)
      else if next == q && i + 1 < |text| then (mode, i + 2, false)
      else (Plain, i + 1, false)
    case Bracketed =>
      if ch != ']' then (mode, i + 1, false)
      else if next == ']' then (mode, i + 2, false)
      else (Plain, i + 1, false)
    case Plain =>
      if ch == '-' && next == '-' then (LineComment, i + 2, false)
      else if ch == '/' && next == '*' then (BlockComment, i + 2, false)
      else if IsQuote(ch) then (Quoted(ch), i + 1, false)
      else if ch == '[' then (Bracketed, i + 1, false)
      else (Plain, i + 1, true)
  }

  /** The keyword stands at `pos`, in any case, and is a whole word. */
  predicate KeywordAt(text: string, pos: nat, keyword: string) {
    && pos + |keyword| <= |text|
    && (pos > 0 ==> !IsIdentifierChar(text[pos - 1]))
    && (pos + |keyword| < |text| ==> !IsIdentifierChar(text[pos + |keyword|]))
    && forall i | 0 <= i < |keyword| :: Upper(text[pos + i]) == Upper(keyword[i])
  }

  /** The parenthesis that closes the `depth` open ones. */
  function Closing(text: string, i: nat, mode: Mode, depth: nat): (r: Option<nat>)
    requires i <= |text| && depth > 0
    ensures r.Some? ==> i <= r.value < |text|
    decreases |text| - i
  {
    if i == |text| then None
    else
      var (mode', i', plain) := Step(text, i, mode);
      if plain && text[i] == ')' then if depth == 1 then Some(i) else Closing(text, i', mode', depth - 1)
      else Closing(text, i', mode', if plain && text[i] == '(' then depth + 1 else depth)
  }

  function MatchingParen(text: string, open: nat): (r: Option<nat>)
    ensures r.Some? ==> open < r.value < |text|
  {
    if open >= |text| || text[open] != '(' then None else Closing(text, open + 1, Plain, 1)
  }

  /** The depth after a character: a closing parenthesis too many does not count. */
  function Depth(depth: nat, plain: bool, c: char): nat {
    if plain && c == '(' then depth + 1 else if plain && c == ')' && depth > 0 then depth - 1 else depth
  }

  /** The first place outside of everything where the keyword stands. */
  function Keyword(text: string, keyword: string, i: nat, mode: Mode, depth: nat): (r: Option<nat>)
    requires i <= |text|
    ensures r.Some? ==> i <= r.value < |text|
    decreases |text| - i
  {
    if i == |text| then None
    else
      var (mode', i', plain) := Step(text, i, mode);
      if plain && text[i] != '(' && text[i] != ')' && depth == 0 && KeywordAt(text, i, keyword) then Some(i)
      else Keyword(text, keyword, i', mode', Depth(depth, plain, text[i]))
  }

  /** The commas outside of everything. */
  function Commas(text: string, i: nat, mode: Mode, depth: nat): (cs: seq<nat>)
    requires i <= |text|
    ensures forall k | 0 <= k < |cs| :: i <= cs[k] < |text|
    ensures forall k, l | 0 <= k < l < |cs| :: cs[k] < cs[l]
    decreases |text| - i
  {
    if i == |text| then []
    else
      var (mode', i', plain) := Step(text, i, mode);
      (if plain && text[i] == ',' && depth == 0 then [i] else [])
      + Commas(text, i', mode', Depth(depth, plain, text[i]))
  }

  // ----- the loops

  method FindMatchingParen(text: string, open: nat) returns (r: Option<nat>)
    ensures r == MatchingParen(text, open)
  {
    if open >= |text| || text[open] != '(' { return None; }
    var depth, mode, i := 1, Plain, open + 1;
    while i < |text|
      invariant i <= |text| && depth > 0
      invariant Closing(text, i, mode, depth) == Closing(text, open + 1, Plain, 1)
      decreases |text| - i
    {
      var (mode', i', plain) := Step(text, i, mode);
      if plain && text[i] == '(' {
        depth := depth + 1;
      } else if plain && text[i] == ')' {
        depth := depth - 1;
        if depth == 0 { return Some(i); }
      }
      mode, i := mode', i';
    }
    return None;
  }

  method FindKeywordTopLevel(text: string, keyword: string, start: nat) returns (r: Option<nat>)
    ensures r == if start <= |text| then Keyword(text, keyword, start, Plain, 0) else None
  {
    var depth, mode, i := 0, Plain, start;
    if start > |text| { return None; }
    while i < |text|
      invariant i <= |text| && depth >= 0
      invariant Keyword(text, keyword, i, mode, depth) == Keyword(text, keyword, start, Plain, 0)
      decreases |text| - i
    {
      var (mode', i', plain) := Step(text, i, mode);
      if plain && text[i] == '(' {
        depth := depth + 1;
      } else if plain && text[i] == ')' {
        if depth > 0 { depth := depth - 1; }
      } else if plain && depth == 0 && KeywordAt(text, i, keyword) {
        return Some(i);
      }
      mode, i := mode', i';
    }
    return None;
  }

  // ----- white space

  function TrimLeft(s: string): string {
    if s != [] && IsSpace(s[0]) then TrimLeft(s[1..]) else s
  }

  function TrimRight(s: string): string {
    if s != [] && IsSpace(s[|s| - 1]) then TrimRight(s[..|s| - 1]) else s
  }

  method TrimSqlView(value: string) returns (v: string)
    ensures v == TrimRight(TrimLeft(value))
  {
    v := value;
    while v != [] && IsSpace(v[0])
      invariant TrimLeft(v) == TrimLeft(value)
      decreases |v|
    {
      v := v[1..];
    }
    while v != [] && IsSpace(v[|v| - 1])
      invariant TrimRight(v) == TrimRight(TrimLeft(value))
      decreases |v|
    {
      v := v[..|v| - 1];
    }
  }

  function SkipSpaces(text: string, pos: nat): (p: nat)
    requires pos <= |text|
    ensures pos <= p <= |text| && (p < |text| ==> !IsSpace(text[p]))
    decreases |text| - pos
  {
    if pos < |text| && IsSpace(text[pos]) then SkipSpaces(text, pos + 1) else pos
  }

  method SkipSqlSpace(text: string, pos: nat) returns (p: nat)
    requires pos <= |text|
    ensures p == SkipSpaces(text, pos)
  {
    p := pos;
    while p < |text| && IsSpace(text[p])
      invariant pos <= p <= |text| && SkipSpaces(text, p) == SkipSpaces(text, pos)
    {
      p := p + 1;
    }
  }

  // ----- identifiers

  /** The text up to the closing character, which stands for itself where it is doubled. */
  function ReadQuoted(text: string, pos: nat, close: char, result: string): (r: (Option<string>, nat))
    requires pos <= |text|
    ensures pos <= r.1 <= |text|
    decreases |text| - pos
  {
    if pos == |text| then (None, pos)
    else if text[pos] != close then ReadQuoted(text, pos + 1, close, result + [text[pos]])
    else if pos + 1 < |text| && text[pos + 1] == close then ReadQuoted(text, pos + 2, close, result + [close])
    else (Some(result), pos + 1)
  }

  predicate EndsWord(c: char) { IsSpace(c) || c == '(' || c == ')' || c == ',' }

  function WordEnd(text: string, pos: nat): (p: nat)
    requires pos <= |text|
    ensures pos <= p <= |text|
    decreases |text| - pos
  {
    if pos < |text| && !EndsWord(text[pos]) then WordEnd(text, pos + 1) else pos
  }

  function ReadIdentifier(text: string, pos: nat): (r: (Option<string>, nat))
    requires pos <= |text|
    ensures pos <= r.1 <= |text|
  {
    var p := SkipSpaces(text, pos);
    if p == |text| then (None, p)
    else if text[p] == '"' || text[p] == '`' || text[p] == '[' then
      ReadQuoted(text, p + 1, if text[p] == '[' then ']' else text[p], [])
    else
      var end := WordEnd(text, p);
      if end == p then (None, p) else (Some(text[p..end]), end)
  }

  method ReadSqlIdentifier(text: string, pos: nat) returns (name: Option<string>, next: nat)
    requires pos <= |text|
    ensures (name, next) == ReadIdentifier(text, pos)
  {
    var p := SkipSqlSpace(text, pos);
    if p >= |text| { return None, p; }
    var quote := text[p];
    if quote == '"' || quote == '`' || quote == '[' {
      var close := if quote == '[' then ']' else quote;
      ghost var start := p + 1;
      p := p + 1;
      var result := "";
      while p < |text|
        invariant start <= p <= |text|
        invariant ReadQuoted(text, p, close, result) == ReadQuoted(text, start, close, [])
        decreases |text| - p
      {
        var ch := text[p];
        p := p + 1;
        if ch == close {
          if p < |text| && text[p] == close {
            result := result + [close];
            p := p + 1;
          } else {
            return Some(result), p;
          }
        } else {
          result := result + [ch];
        }
      }
      return None, p;
    }
    var start := p;
    while p < |text| && !EndsWord(text[p])
      invariant start <= p <= |text| && WordEnd(text, p) == WordEnd(text, start)
    {
      p := p + 1;
    }
    if p == start { return None, p; }
    return Some(text[start..p]), p;
  }

  // ----- quoting

  function Doubled(id: string): string {
    if id == [] then [] else (if id[0] == '"' then "\"\"" else [id[0]]) + Doubled(id[1..])
  }

  function QuoteAnsi(id: string): string { "\"" + Doubled(id) + "\"" }

  method QuoteAnsiIdentifier(id: string) returns (out: string)
    ensures out == QuoteAnsi(id)
  {
    out := "\"";
    for i := 0 to |id|
      invariant out + Doubled(id[i..]) == "\"" + Doubled(id)
    {
      assert id[i..][1..] == id[i + 1..];
      if id[i] == '"' { out := out + "\"\""; } else { out := out + [id[i]]; }
    }
    out := out + "\"";
  }

  lemma {:induction false} ReadDoubled(text: string, pos: nat, id: string, result: string)
    requires pos + |Doubled(id)| < |text| && text[pos..pos + |Doubled(id)|] == Doubled(id)
    requires text[pos + |Doubled(id)|] == '"'
    requires pos + |Doubled(id)| + 1 < |text| ==> text[pos + |Doubled(id)| + 1] != '"'
    ensures ReadQuoted(text, pos, '"', result) == (Some(result + id), pos + |Doubled(id)| + 1)
    decreases |id|
  {
    if id == [] {
      assert result + id == result;
    } else {
      var n, here := |Doubled(id)|, text[pos..pos + |Doubled(id)|];
      assert here[0] == text[pos];
      if id[0] == '"' {
        assert here[1] == text[pos + 1];
        assert text[pos + 2..pos + n] == here[2..] == Doubled(id[1..]);
        ReadDoubled(text, pos + 2, id[1..], result + ['"']);
        assert result + ['"'] + id[1..] == result + id;
      } else {
        assert text[pos + 1..pos + n] == here[1..] == Doubled(id[1..]);
        ReadDoubled(text, pos + 1, id[1..], result + [id[0]]);
        assert result + [id[0]] + id[1..] == result + id;
      }
    }
  }

  /** Reading undoes quoting, for every identifier, wherever it stands and whatever follows it but
      another quote. */
  lemma QuotedReadsBack(text: string, pos: nat, id: string)
    requires pos + |QuoteAnsi(id)| <= |text| && text[pos..pos + |QuoteAnsi(id)|] == QuoteAnsi(id)
    requires pos + |QuoteAnsi(id)| < |text| ==> text[pos + |QuoteAnsi(id)|] != '"'
    ensures ReadIdentifier(text, pos) == (Some(id), pos + |QuoteAnsi(id)|)
  {
    var n, q := |Doubled(id)|, QuoteAnsi(id);
    assert forall k | 0 <= k < n + 2 :: text[pos + k] == text[pos..pos + n + 2][k] == q[k];
    assert q[0] == '"' && q[n + 1] == '"';
    forall k | 0 <= k < n
      ensures text[pos + 1 + k] == Doubled(id)[k]
    {
      assert text[pos + (k + 1)] == q[k + 1];
    }
    assert text[pos + 1..pos + 1 + n] == Doubled(id);
    assert text[pos + (n + 1)] == '"';
    ReadDoubled(text, pos + 1, id, []);
    assert [] + id == id;
  }
}
