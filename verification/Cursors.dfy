/** Page cursors: the order values of a row as text, and back. */
module Cursors {
  import opened Wrappers
  import opened Values
  import opened Base64Url
  import opened Decimals

  datatype OrderTerm = OrderTerm(table: string, column: string, ascending: bool)

  datatype CursorError = InvalidFormat | InvalidPayload | InvalidVersion | NullOrderValue

  /** The text of a double and back, as the standard library has it. */
  datatype DoubleText = DoubleText(render: real -> string, parse: string -> Option<real>)

  datatype DecodedCursor = DecodedCursor(values: seq<Value>, signature: string)

  // ----- values

  function Chars(bytes: seq<Byte>): (s: string)
    ensures |s| == |bytes| && forall i | 0 <= i < |s| :: s[i] as int == bytes[i]
  {
    seq(|bytes|, i requires 0 <= i < |bytes| => bytes[i] as char)
  }

  function Bytes(s: string): seq<Byte>
    requires IsBytes(s)
  {
    seq(|s|, i requires 0 <= i < |s| => s[i] as int)
  }

  /** Tag and text of a value; null has none. */
  function ValueText(v: Value, d: DoubleText): Option<(char, string)> {
    match v
    case Null => None
    case Int(i) => Some(('i', ToString(i)))
    case Double(x) => Some(('d', d.render(x)))
    case Text(s) => Some(('s', s))
    case Bool(b) => Some(('b', if b then "1" else "0"))
    case Blob(bytes) => Some(('x', Chars(bytes)))
  }

  function ParseValue(tag: char, text: string, d: DoubleText): Option<Value>
    requires IsBytes(text)
  {
    match tag
    case 'i' => (match ParseSigned(text) case Some(i) => Some(Int(i)) case None => None)
    case 'd' => (match d.parse(text) case Some(x) => Some(Double(x)) case None => None)
    case 's' => Some(Text(text))
    case 'b' => if text == "1" then Some(Bool(true)) else if text == "0" then Some(Bool(false)) else None
    case 'x' => Some(Blob(Bytes(text)))
    case _ => None
  }

  /** A value that a cursor can carry: not null, in the range of its type, text and names in bytes. */
  ghost predicate Portable(v: Value, d: DoubleText) {
    match v
    case Null => false
    case Int(i) => -I63 <= i < I63
    case Double(x) => IsBytes(d.render(x)) && d.parse(d.render(x)) == Some(x)
    case Text(s) => IsBytes(s)
    case Bool(_) => true
    case Blob(_) => true
  }

  lemma ToStringIsBytes(i: int)
    ensures IsBytes(ToString(i))
  {
    assert forall n: nat, k | 0 <= k < |Digits(n)| :: IsDigit(Digits(n)[k]);
  }

  lemma ValueRoundTrip(v: Value, d: DoubleText)
    requires Portable(v, d)
    ensures ValueText(v, d).Some? && IsBytes(ValueText(v, d).value.1)
    ensures ParseValue(ValueText(v, d).value.0, ValueText(v, d).value.1, d) == Some(v)
  {
    match v
    case Int(i) =>
      ToStringIsBytes(i);
      SignedRoundTrip(i);
    case Blob(bytes) => assert Bytes(Chars(bytes)) == bytes;
    case _ =>
  }

  // ----- the plain text

  function TermText(t: OrderTerm): string {
    t.table + "." + t.column + if t.ascending then ":ASC" else ":DESC"
  }

  function Signature(order: seq<OrderTerm>): string {
    if order == [] then []
    else
      var last := TermText(order[|order| - 1]);
      if |order| == 1 then last else Signature(order[..|order| - 1]) + "," + last
  }

  function Item(v: Value, d: DoubleText): string
    requires ValueText(v, d).Some?
  {
    var (tag, text) := ValueText(v, d).value;
    [tag] + Digits(|text|) + ":" + text + "\n"
  }

  ghost predicate NoneNull(values: seq<Value>) { forall i | 0 <= i < |values| :: !values[i].Null? }

  function Items(values: seq<Value>, d: DoubleText): string
    requires forall i | 0 <= i < |values| :: !values[i].Null?
  {
    if values == [] then [] else Item(values[0], d) + Items(values[1..], d)
  }

  function Header(order: seq<OrderTerm>, count: nat): string {
    "2\n" + Signature(order) + "\n" + Digits(count) + "\n"
  }

  /** What a cursor says, before it is put into the alphabet. */
  function PlainText(values: seq<Value>, order: seq<OrderTerm>, d: DoubleText): string
    requires forall i | 0 <= i < |values| :: !values[i].Null?
  {
    Header(order, |values|) + Items(values, d)
  }

  /** The strings are strings of bytes. */
  ghost predicate InBytes(values: seq<Value>, order: seq<OrderTerm>, d: DoubleText) {
    && IsBytes(Signature(order))
    && forall i | 0 <= i < |values| :: !values[i].Null? ==> IsBytes(ValueText(values[i], d).value.1)
  }

  lemma HeaderIsBytes(order: seq<OrderTerm>, count: nat)
    requires IsBytes(Signature(order))
    ensures IsBytes(Header(order, count))
  {
    assert forall k | 0 <= k < |Digits(count)| :: IsDigit(Digits(count)[k]);
  }

  lemma ItemIsBytes(v: Value, d: DoubleText)
    requires ValueText(v, d).Some? && IsBytes(ValueText(v, d).value.1)
    ensures IsBytes(Item(v, d))
  {
    var n := |ValueText(v, d).value.1|;
    assert forall k | 0 <= k < |Digits(n)| :: IsDigit(Digits(n)[k]);
  }

  lemma {:induction false} ItemsAreBytes(values: seq<Value>, d: DoubleText)
    requires NoneNull(values) && forall i | 0 <= i < |values| :: IsBytes(ValueText(values[i], d).value.1)
    ensures IsBytes(Items(values, d))
  {
    if values != [] {
      ItemIsBytes(values[0], d);
      ItemsAreBytes(values[1..], d);
    }
  }

  // ----- encoding

  method OrderSignature(order: seq<OrderTerm>) returns (out: string)
    ensures out == Signature(order)
  {
    out := "";
    for i := 0 to |order|
      invariant out == Signature(order[..i])
    {
      if i > 0 { out := out + ","; }
      out := out + (order[i].table + "." + order[i].column + if order[i].ascending then ":ASC" else ":DESC");
      assert order[..i + 1][..i] == order[..i];
    }
    assert order[..|order|] == order;
  }

  method EncodeCursor(values: seq<Value>, order: seq<OrderTerm>, d: DoubleText) returns (r: Result<string, CursorError>)
    requires InBytes(values, order, d)
    ensures r.Ok? <==> NoneNull(values)
    ensures r.Ok? ==> IsBytes(PlainText(values, order, d)) && r.value == Encoded(PlainText(values, order, d))
    ensures r.Err? ==> r.error == NullOrderValue
  {
    hide Item, Header, Digits, IsBytes, Encoded;
    var signature := OrderSignature(order);
    var plain := "2\n" + signature + "\n" + ToString(|values|) + "\n";
    HeaderIs(order, |values|);
    HeaderIsBytes(order, |values|);
    for i := 0 to |values|
      invariant forall j | 0 <= j < i :: !values[j].Null?
      invariant IsBytes(plain)
      invariant NoneNull(values) ==> plain + Items(values[i..], d) == Header(order, |values|) + Items(values, d)
    {
      var text := ValueText(values[i], d);
      if text.None? {
        return Err(NullOrderValue);
      }
      ghost var before := plain;
      ItemIsBytes(values[i], d);
      AppendsItem(plain, values[i], d);
      plain := plain + [text.value.0];
      plain := plain + ToString(|text.value.1|);
      plain := plain + ":";
      plain := plain + text.value.1;
      plain := plain + "\n";
      BytesAppend(before, Item(values[i], d));
      if NoneNull(values) { ItemsStep(values, i, before, d); }
    }
    var out := Encode(plain);
    assert values[|values|..] == [] && plain + Items([], d) == plain;
    return Ok(out);
  }

  lemma HeaderIs(order: seq<OrderTerm>, count: nat)
    ensures Header(order, count) == "2\n" + Signature(order) + "\n" + ToString(count) + "\n"
  {}

  lemma AppendsItem(plain: string, v: Value, d: DoubleText)
    requires ValueText(v, d).Some?
    ensures var (tag, text) := ValueText(v, d).value;
            plain + [tag] + ToString(|text|) + ":" + text + "\n" == plain + Item(v, d)
  {
    var (tag, text) := ValueText(v, d).value;
    assert Item(v, d) == [tag] + (ToString(|text|) + (":" + (text + "\n")));
  }

  lemma BytesAppend(s: string, t: string)
    requires IsBytes(s) && IsBytes(t)
    ensures IsBytes(s + t)
  {}

  lemma ItemsStep(values: seq<Value>, i: nat, before: string, d: DoubleText)
    requires NoneNull(values) && i < |values|
    ensures before + Items(values[i..], d) == before + Item(values[i], d) + Items(values[i + 1..], d)
  {
    hide Item;
    assert values[i..][0] == values[i] && values[i..][1..] == values[i + 1..];
  }

  // ----- decoding

  /** The first `c` at `from` or later, or -1. */
  function Find(s: string, c: char, from: nat): (i: int)
    ensures i == -1 || (from <= i < |s| && s[i] == c && forall j | from <= j < i :: s[j] != c)
    decreases |s| - from
  {
    if from >= |s| then -1 else if s[from] == c then from else Find(s, c, from + 1)
  }

  /** The line at a position, and the position after it. */
  function ReadLine(text: string, position: nat): Option<(string, nat)> {
    var end := Find(text, '\n', position);
    if end < 0 then None else Some((text[position..end], end + 1))
  }

  /** What the next item holds, and the position after it. Positions wrap around at 64 bits. */
  function ReadItem(plain: string, pos: nat, d: DoubleText): Option<(Value, nat)>
    requires IsBytes(plain)
  {
    if pos >= |plain| then None
    else
      var colon := Find(plain, ':', pos + 1);
      if colon < 0 then None
      else
        match ParseUnsigned(plain[pos + 1..colon])
        case None => None
        case Some(length) =>
          var start, end := colon + 1, (colon + 1 + length) % U64;
          if end > |plain| then None
          else
            match ParseValue(plain[pos], plain[start..if start + length <= |plain| then start + length else |plain|], d)
            case None => None
            case Some(value) => if end < |plain| && plain[end] == '\n' then Some((value, end + 1)) else None
  }

  function ReadItems(plain: string, pos: nat, count: nat, values: seq<Value>, d: DoubleText): Option<seq<Value>>
    requires IsBytes(plain)
    decreases count
  {
    if count == 0 then Some(values)
    else
      match ReadItem(plain, pos, d)
      case None => None
      case Some((value, next)) => ReadItems(plain, next, count - 1, values + [value], d)
  }

  function ParsePlain(plain: string, d: DoubleText): Result<DecodedCursor, CursorError>
    requires IsBytes(plain)
  {
    match ReadLine(plain, 0)
    case None => Err(InvalidPayload)
    case Some((version, pos1)) =>
      if version != "2" then Err(InvalidVersion)
      else
        match ReadLine(plain, pos1)
        case None => Err(InvalidPayload)
        case Some((signature, pos2)) =>
          match ReadLine(plain, pos2)
          case None => Err(InvalidPayload)
          case Some((count, pos3)) =>
            match ParseUnsigned(count)
            case None => Err(InvalidPayload)
            case Some(n) =>
              match ReadItems(plain, pos3, n, [], d)
              case None => Err(InvalidPayload)
              case Some(values) => Ok(DecodedCursor(values, signature))
  }

  lemma {:induction false} DecodedIsBytes(t: string)
    requires AllLetters(t)
    ensures IsBytes(Decoded(t))
  {
    if |t| > 3 { DecodedIsBytes(t[4..]); }
  }

  /** Rejects every text outside the alphabet, and never reads outside what it has decoded. */
  method DecodeCursor(cursor: string, d: DoubleText) returns (r: Result<DecodedCursor, CursorError>)
    ensures !AllLetters(cursor) ==> r == Err(InvalidFormat)
    ensures AllLetters(cursor) ==> IsBytes(Decoded(cursor)) && r == ParsePlain(Decoded(cursor), d)
  {
    hide Decoded, IsBytes, ReadItem, ParseUnsigned;
    var decoded := Decode(cursor);
    if decoded.None? {
      return Err(InvalidFormat);
    }
    DecodedIsBytes(cursor);
    var plain := decoded.value;
    var version := ReadLine(plain, 0);
    if version.None? { return Err(InvalidPayload); }
    if version.value.0 != "2" { return Err(InvalidVersion); }
    var signature := ReadLine(plain, version.value.1);
    if signature.None? { return Err(InvalidPayload); }
    var count := ReadLine(plain, signature.value.1);
    if count.None? { return Err(InvalidPayload); }
    var n := ParseUnsigned(count.value.0);
    if n.None? { return Err(InvalidPayload); }
    var pos, values := count.value.1, [];
    for i := 0 to n.value
      invariant ReadItems(plain, pos, n.value - i, values, d) == ReadItems(plain, count.value.1, n.value, [], d)
    {
      var item := ReadItem(plain, pos, d);
      if item.None? { return Err(InvalidPayload); }
      values := values + [item.value.0];
      pos := item.value.1;
    }
    return Ok(DecodedCursor(values, signature.value.0));
  }

  // ----- round trip

  lemma {:induction false} FindAfter(s: string, c: char, from: nat, at: nat)
    requires from <= at < |s| && s[at] == c && forall j | from <= j < at :: s[j] != c
    ensures Find(s, c, from) == at
    decreases at - from
  {
    if from < at { FindAfter(s, c, from + 1, at); }
  }

  /** An item that stands at `pos` reads back as its value. */
  lemma ItemReadsBack(plain: string, pos: nat, v: Value, d: DoubleText)
    requires IsBytes(plain) && |plain| < U64 && Portable(v, d)
    requires ValueText(v, d).Some? && pos + |Item(v, d)| <= |plain|
    requires plain[pos..pos + |Item(v, d)|] == Item(v, d)
    ensures ReadItem(plain, pos, d) == Some((v, pos + |Item(v, d)|))
  {
    hide Portable, ParseValue, ParseUnsigned, Digits, ValueText, Find, IsBytes;
    ValueRoundTrip(v, d);
    var (tag, text) := ValueText(v, d).value;
    var n := Digits(|text|);
    var colon := pos + 1 + |n|;
    ItemParts(plain, pos, tag, n, text);
    FindAfter(plain, ':', pos + 1, colon);
    UnsignedRoundTrip(|text|);
  }

  lemma ItemParts(plain: string, pos: nat, tag: char, n: string, text: string)
    requires pos + |n| + |text| + 3 <= |plain|
    requires plain[pos..pos + |n| + |text| + 3] == [tag] + n + ":" + text + "\n"
    requires forall i | 0 <= i < |n| :: IsDigit(n[i])
    ensures plain[pos] == tag && plain[pos + 1..pos + 1 + |n|] == n
    ensures plain[pos + 1 + |n|] == ':' && forall j | pos + 1 <= j < pos + 1 + |n| :: plain[j] != ':'
    ensures plain[pos + 2 + |n|..pos + 2 + |n| + |text|] == text && plain[pos + 2 + |n| + |text|] == '\n'
  {
    var item := [tag] + n + ":" + text + "\n";
    var here := plain[pos..pos + |item|];
    Slice([tag], n, ":" + text + "\n");
    assert item == [tag] + n + (":" + text + "\n");
    Slice([tag] + n + ":", text, "\n");
    SliceOfSlice(plain, pos, |item|, 1, 1 + |n|);
    SliceOfSlice(plain, pos, |item|, 2 + |n|, 2 + |n| + |text|);
    assert plain[pos] == here[0] && plain[pos + 1 + |n|] == here[1 + |n|]
        && plain[pos + 2 + |n| + |text|] == here[2 + |n| + |text|];
    forall j | pos + 1 <= j < pos + 1 + |n|
      ensures plain[j] != ':'
    {
      assert plain[j] == here[j - pos] == item[j - pos] == n[j - pos - 1];
    }
  }

  lemma {:induction false} ItemsReadBack(plain: string, pos: nat, vs: seq<Value>, acc: seq<Value>, d: DoubleText)
    requires IsBytes(plain) && |plain| < U64
    requires forall i | 0 <= i < |vs| :: Portable(vs[i], d) && !vs[i].Null?
    requires pos <= |plain| && plain[pos..] == Items(vs, d)
    ensures ReadItems(plain, pos, |vs|, acc, d) == Some(acc + vs)
    decreases |vs|
  {
    hide Portable, ReadItem, Item;
    if vs != [] {
      var item := Item(vs[0], d);
      assert plain[pos..] == item + Items(vs[1..], d);
      assert plain[pos..pos + |item|] == plain[pos..][..|item|] == item;
      ItemReadsBack(plain, pos, vs[0], d);
      assert plain[pos + |item|..] == plain[pos..][|item|..];
      ItemsReadBack(plain, pos + |item|, vs[1..], acc + [vs[0]], d);
      assert acc + [vs[0]] + vs[1..] == acc + vs;
    } else {
      assert acc + vs == acc;
    }
  }

  ghost predicate NoNewline(s: string) { forall i | 0 <= i < |s| :: s[i] != '\n' }

  lemma LineReadsBack(text: string, pos: nat, line: string)
    requires NoNewline(line) && pos + |line| < |text|
    requires text[pos..pos + |line| + 1] == line + "\n"
    ensures ReadLine(text, pos) == Some((line, pos + |line| + 1))
  {
    var t := text[pos..pos + |line| + 1];
    assert text[pos..pos + |line|] == t[..|line|] == line;
    assert text[pos + |line|] == t[|line|] == '\n';
    assert forall k | pos <= k < pos + |line| :: text[k] == line[k - pos];
    FindAfter(text, '\n', pos, pos + |line|);
  }

  lemma PlainIsBytes(values: seq<Value>, order: seq<OrderTerm>, d: DoubleText)
    requires NoneNull(values) && InBytes(values, order, d)
    ensures IsBytes(PlainText(values, order, d))
  {
    HeaderIsBytes(order, |values|);
    ItemsAreBytes(values, d);
    BytesAppend(Header(order, |values|), Items(values, d));
  }

  lemma SliceOfSlice(s: string, pos: nat, len: nat, i: nat, j: nat)
    requires pos + len <= |s| && i <= j <= len
    ensures s[pos..pos + len][i..j] == s[pos + i..pos + j]
  {
    var t, u := s[pos..pos + len][i..j], s[pos + i..pos + j];
    assert |t| == |u| && forall k | 0 <= k < |t| :: t[k] == u[k];
  }

  lemma Slice(a: string, b: string, c: string)
    ensures |a| + |b| <= |a + b + c| && (a + b + c)[|a|..|a| + |b|] == b && (a + b + c)[|a| + |b|..] == c
  {
    var s := a + b + c;
    assert forall k | 0 <= k < |b| :: s[|a|..|a| + |b|][k] == b[k];
  }

  /** The three lines before the items read back. */
  lemma HeaderReadsBack(order: seq<OrderTerm>, n: string, rest: string)
    requires NoNewline(Signature(order)) && NoNewline(n)
    ensures var plain, sig := "2\n" + Signature(order) + "\n" + n + "\n" + rest, Signature(order);
            && ReadLine(plain, 0) == Some(("2", 2))
            && ReadLine(plain, 2) == Some((sig, 3 + |sig|))
            && ReadLine(plain, 3 + |sig|) == Some((n, 4 + |sig| + |n|))
            && 4 + |sig| + |n| <= |plain| && plain[4 + |sig| + |n|..] == rest
  {
    hide Signature, ReadLine, NoNewline;
    var sig := Signature(order);
    var plain := "2\n" + sig + "\n" + n + "\n" + rest;
    TwoHasNoNewline();
    assert "2\n" == "2" + "\n";
    LineStands([], "2", sig + "\n" + n + "\n" + rest);
    assert plain == [] + "2" + "\n" + (sig + "\n" + n + "\n" + rest);
    LineStands("2\n", sig, n + "\n" + rest);
    assert plain == "2\n" + sig + "\n" + (n + "\n" + rest);
    LineStands("2\n" + sig + "\n", n, rest);
  }

  lemma LineStands(before: string, line: string, rest: string)
    requires NoNewline(line)
    ensures var text := before + line + "\n" + rest;
            && ReadLine(text, |before|) == Some((line, |before| + |line| + 1))
            && text[|before| + |line| + 1..] == rest
  {
    hide NoNewline, ReadLine;
    var text := before + line + "\n" + rest;
    assert text == before + (line + "\n") + rest;
    Slice(before, line + "\n", rest);
    LineReadsBack(text, |before|, line);
  }

  lemma TwoHasNoNewline()
    ensures NoNewline("2")
  {}

  /** A cursor decodes to what was encoded, for every list of values that it can carry, newlines and
      colons in strings included, exactly if no name has a newline. */
  lemma CursorRoundTrip(values: seq<Value>, order: seq<OrderTerm>, d: DoubleText)
    requires NoneNull(values) && forall i | 0 <= i < |values| :: Portable(values[i], d)
    requires InBytes(values, order, d)
    requires |PlainText(values, order, d)| < U64
    ensures IsBytes(PlainText(values, order, d)) && AllLetters(Encoded(PlainText(values, order, d)))
    ensures IsBytes(Decoded(Encoded(PlainText(values, order, d))))
    ensures ParsePlain(Decoded(Encoded(PlainText(values, order, d))), d) == Ok(DecodedCursor(values, Signature(order)))
       <==> NoNewline(Signature(order))
  {
    PlainIsBytes(values, order, d);
    DecodedEncoded(PlainText(values, order, d));
    if NoNewline(Signature(order)) {
      PlainParsesBack(values, order, d);
    } else {
      NewlineBreaks(values, order, d);
    }
  }

  // ----- what a signature tells

  /** No character that a signature puts between names. */
  ghost predicate PlainName(s: string) { '.' !in s && ':' !in s && ',' !in s }

  ghost predicate PlainNames(order: seq<OrderTerm>) {
    forall i | 0 <= i < |order| :: PlainName(order[i].table) && PlainName(order[i].column)
  }

  /** A text up to the first `c`. */
  lemma FirstParts(a: string, b: string, x: string, y: string, c: char)
    requires a + [c] + x == b + [c] + y && c !in a && c !in b
    ensures a == b && x == y
  {
    var s := a + [c] + x;
    assert s[|a|] == c && s[|b|] == c;
    assert forall i | 0 <= i < |a| :: s[i] == a[i];
    assert forall i | 0 <= i < |b| :: s[i] == b[i];
    assert |a| == |b|;
    assert a == s[..|a|] && b == s[..|b|] && x == s[|a| + 1..] && y == s[|b| + 1..];
  }

  /** A text from the last `c` on. */
  lemma LastParts(a: string, b: string, x: string, y: string, c: char)
    requires a + [c] + x == b + [c] + y && c !in x && c !in y
    ensures a == b && x == y
  {
    var s := a + [c] + x;
    assert s[|a|] == c && s[|b|] == c;
    assert forall i | |a| < i < |s| :: s[i] == x[i - |a| - 1] && s[i] != c;
    assert forall i | |b| < i < |s| :: s[i] == y[i - |b| - 1] && s[i] != c;
    assert |a| == |b|;
    assert a == s[..|a|] && b == s[..|b|] && x == s[|a| + 1..] && y == s[|b| + 1..];
  }

  lemma TermTells(t: OrderTerm, u: OrderTerm)
    requires PlainName(t.table) && PlainName(t.column) && PlainName(u.table) && PlainName(u.column)
    requires TermText(t) == TermText(u)
    ensures t == u
  {
    var x, y := if t.ascending then "ASC" else "DESC", if u.ascending then "ASC" else "DESC";
    assert TermText(t) == t.table + ['.'] + (t.column + [':'] + x);
    assert TermText(u) == u.table + ['.'] + (u.column + [':'] + y);
    FirstParts(t.table, u.table, t.column + [':'] + x, u.column + [':'] + y, '.');
    FirstParts(t.column, u.column, x, y, ':');
    assert |"ASC"| == 3 && |"DESC"| == 4;
  }

  lemma TermHasNoComma(t: OrderTerm)
    requires PlainName(t.table) && PlainName(t.column)
    ensures ',' !in TermText(t) && TermText(t) != ""
  {}

  /** Orders of one signature agree in length, names and directions, if no name holds a separator. */
  lemma {:induction false} SignatureTells(a: seq<OrderTerm>, b: seq<OrderTerm>)
    requires PlainNames(a) && PlainNames(b) && Signature(a) == Signature(b)
    ensures a == b
    decreases |a|
  {
    hide TermText;
    if a == [] || b == [] {
      if a != [] { SignatureIsLong(a); }
      if b != [] { SignatureIsLong(b); }
    } else {
      var t, u := a[|a| - 1], b[|b| - 1];
      var x, y := a[..|a| - 1], b[..|b| - 1];
      TermHasNoComma(t);
      TermHasNoComma(u);
      assert a == x + [t] && b == y + [u];
      CommaTells(a);
      CommaTells(b);
      if |a| > 1 {
        assert Signature(x) + [','] + TermText(t) == Signature(y) + [','] + TermText(u);
        LastParts(Signature(x), Signature(y), TermText(t), TermText(u), ',');
        SignatureTells(x, y);
      }
      TermTells(t, u);
    }
  }

  lemma CommaTells(order: seq<OrderTerm>)
    requires order != [] && PlainNames(order)
    ensures ',' in Signature(order) <==> |order| > 1
  {
    hide TermText;
    TermHasNoComma(order[|order| - 1]);
    if |order| > 1 { assert Signature(order)[|Signature(order[..|order| - 1])|] == ','; }
  }

  lemma SignatureIsLong(order: seq<OrderTerm>)
    requires order != [] && PlainNames(order)
    ensures Signature(order) != ""
  {
    hide TermText;
    TermHasNoComma(order[|order| - 1]);
  }

  /** With a dot in a name two orders may have one signature. */
  lemma SignaturesCollide()
    ensures var a, b := [OrderTerm("x.y", "z", true)], [OrderTerm("x", "y.z", true)];
            a != b && Signature(a) == Signature(b)
  {
    assert |"x.y"| == 3 && |"x"| == 1;
    assert TermText(OrderTerm("x.y", "z", true)) == "x.y.z:ASC" == TermText(OrderTerm("x", "y.z", true));
  }

  /** A name with a newline in it cuts the signature short. */
  lemma NewlineBreaks(values: seq<Value>, order: seq<OrderTerm>, d: DoubleText)
    requires NoneNull(values) && IsBytes(PlainText(values, order, d)) && !NoNewline(Signature(order))
    ensures ParsePlain(PlainText(values, order, d), d) != Ok(DecodedCursor(values, Signature(order)))
  {
    hide Digits, Items, Signature, ReadItems, ReadLine, ParseUnsigned, IsBytes, NoNewline;
    var plain, sig := PlainText(values, order, d), Signature(order);
    var rest := "\n" + Digits(|values|) + "\n" + Items(values, d);
    assert plain == "" + "2" + "\n" + (sig + rest) && plain == "2\n" + sig + rest;
    TwoHasNoNewline();
    LineStands("", "2", sig + rest);
    ShortLine(plain, 2, sig, rest);
  }

  lemma ShortLine(text: string, pos: nat, line: string, rest: string)
    requires pos <= |text| && text[pos..] == line + rest && !NoNewline(line)
    ensures ReadLine(text, pos).Some? ==> ReadLine(text, pos).value.0 != line
  {
    var i :| 0 <= i < |line| && line[i] == '\n';
    assert text[pos + i] == text[pos..][i] == line[i];
    var end := Find(text, '\n', pos);
    assert end < 0 || end <= pos + i;
  }

  lemma PlainParsesBack(values: seq<Value>, order: seq<OrderTerm>, d: DoubleText)
    requires NoneNull(values) && forall i | 0 <= i < |values| :: Portable(values[i], d)
    requires IsBytes(PlainText(values, order, d)) && NoNewline(Signature(order))
    requires |PlainText(values, order, d)| < U64
    ensures ParsePlain(PlainText(values, order, d), d) == Ok(DecodedCursor(values, Signature(order)))
  {
    hide Digits, Items, Signature, ReadItems, ReadLine, ParseUnsigned, Portable, NoNewline, IsBytes;
    var n := Digits(|values|);
    DigitsHaveNoNewline(|values|);
    HeaderReadsBack(order, n, Items(values, d));
    ItemsFit(values, d);
    UnsignedRoundTrip(|values|);
    ItemsReadBack(PlainText(values, order, d), 4 + |Signature(order)| + |n|, values, [], d);
    assert [] + values == values;
  }

  lemma DigitsHaveNoNewline(n: nat)
    ensures NoNewline(Digits(n))
  {
    hide Digits;
    assert forall k | 0 <= k < |Digits(n)| :: IsDigit(Digits(n)[k]);
  }

  lemma {:induction false} ItemsFit(values: seq<Value>, d: DoubleText)
    requires NoneNull(values)
    ensures |values| <= |Items(values, d)|
  {
    if values != [] { ItemsFit(values[1..], d); }
  }
}
