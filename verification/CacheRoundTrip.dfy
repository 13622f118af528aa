/** A cached result is the result, exactly if it is within the limits that the reader sets. */
module CacheRoundTrip {
  import opened Wrappers
  import opened Values
  import opened Sorting
  import opened Base64Url
  import opened Decimals
  import opened Cursors
  import opened CacheCodec
  import opened CacheReader

  /** The values that the types of the program can hold. */
  ghost predicate ValueFits(v: Value, d: DoubleBits) {
    match v
    case Null => true
    case Int(i) => -I63 <= i < I63
    case Double(x) => d.bits(x) < U64 && d.value(d.bits(x)) == x
    case Text(s) => IsBytes(s) && |s| < U64
    case Bool(_) => true
    case Blob(bs) => |bs| < U64
  }

  ghost predicate RowFits(row: Columns, d: DoubleBits) {
    |row| < U64 && forall n | n in row :: IsBytes(n) && |n| < U64 && ValueFits(row[n], d)
  }

  ghost predicate Fits(r: QueryResult, d: DoubleBits) {
    && |r.rows| < U64 && (forall i | 0 <= i < |r.rows| :: RowFits(r.rows[i], d))
    && -I63 <= r.affectedRows < I63 && -I63 <= r.lastInsertId < I63
  }

  predicate WithinLimit(r: QueryResult) {
    |r.rows| <= LIMIT && forall i | 0 <= i < |r.rows| :: |r.rows[i]| <= LIMIT
  }

  /** From `pos` on the input is `x` and then `rest`. */
  ghost predicate Stands(input: seq<Byte>, pos: nat, x: seq<Byte>, rest: seq<Byte>) {
    pos <= |input| && input[pos..] == x + rest
  }

  lemma Behind(input: seq<Byte>, pos: nat, x: seq<Byte>, rest: seq<Byte>)
    requires Stands(input, pos, x, rest)
    ensures pos + |x| <= |input| && input[pos..pos + |x|] == x && input[pos + |x|..] == rest
  {
    assert input[pos..][..|x|] == x && input[pos..][|x|..] == rest;
  }

  lemma U64ReadsBack(input: seq<Byte>, pos: nat, n: nat, rest: seq<Byte>)
    requires n < U64 && Stands(input, pos, U64Bytes(n), rest)
    ensures ReadU64(input, pos) == Some((n, pos + 8)) && input[pos + 8..] == rest
  {
    Behind(input, pos, U64Bytes(n), rest);
    U64Back(n);
  }

  lemma SignedBack(i: int)
    requires -I63 <= i < I63
    ensures ToUnsigned(i) < U64 && ToSigned(ToUnsigned(i)) == i
  {
    if i < 0 { assert ToUnsigned(i) == i + U64; }
  }

  lemma BlobReadsBack(input: seq<Byte>, pos: nat, bs: seq<Byte>, rest: seq<Byte>)
    requires |bs| < U64 && Stands(input, pos, U64Bytes(|bs|) + bs, rest)
    ensures ReadBlob(input, pos) == Some((bs, pos + 8 + |bs|)) && input[pos + 8 + |bs|..] == rest
  {
    hide U64Bytes, ReadU64;
    assert U64Bytes(|bs|) + bs + rest == U64Bytes(|bs|) + (bs + rest);
    U64ReadsBack(input, pos, |bs|, bs + rest);
    Behind(input, pos + 8, bs, rest);
  }

  lemma TextBack(s: string)
    requires IsBytes(s)
    ensures Chars(Bytes(s)) == s
  {}

  lemma StringReadsBack(input: seq<Byte>, pos: nat, s: string, rest: seq<Byte>)
    requires IsBytes(s) && |s| < U64 && Stands(input, pos, StringBytes(s), rest)
    ensures ReadBlob(input, pos) == Some((Bytes(s), pos + |StringBytes(s)|)) && Chars(Bytes(s)) == s
    ensures input[pos + |StringBytes(s)|..] == rest
  {
    TextBack(s);
    BlobReadsBack(input, pos, Bytes(s), rest);
  }

  /** The tag of a value, and what stands behind it. */
  lemma TagStands(input: seq<Byte>, pos: nat, tag: Byte, body: seq<Byte>, rest: seq<Byte>)
    requires Stands(input, pos, [tag] + body, rest)
    ensures pos < |input| && input[pos] == tag && Stands(input, pos + 1, body, rest)
    ensures pos + 1 + |body| <= |input| && input[pos + 1 + |body|..] == rest
  {
    Behind(input, pos, [tag] + body, rest);
    assert [tag] + body + rest == [tag] + (body + rest);
    assert input[pos] == input[pos..][0];
    assert input[pos + 1..] == input[pos..][1..] == body + rest;
  }

  lemma IntReadsBack(input: seq<Byte>, pos: nat, i: int, d: DoubleBits, rest: seq<Byte>)
    requires -I63 <= i < I63 && Stands(input, pos, ValueBytes(Int(i), d), rest)
    ensures ReadValue(input, pos, d) == Some((Int(i), pos + 9))
  {
    hide U64Bytes, ReadU64, Stands, ToSigned, ToUnsigned;
    TagStands(input, pos, 1, U64Bytes(ToUnsigned(i)), rest);
    SignedBack(i);
    U64ReadsBack(input, pos + 1, ToUnsigned(i), rest);
  }

  lemma DoubleReadsBack(input: seq<Byte>, pos: nat, x: real, d: DoubleBits, rest: seq<Byte>)
    requires ValueFits(Double(x), d) && Stands(input, pos, ValueBytes(Double(x), d), rest)
    ensures ReadValue(input, pos, d) == Some((Double(x), pos + 9))
  {
    hide U64Bytes, ReadU64, Stands;
    TagStands(input, pos, 2, U64Bytes(d.bits(x)), rest);
    U64ReadsBack(input, pos + 1, d.bits(x), rest);
  }

  lemma TextReadsBack(input: seq<Byte>, pos: nat, s: string, d: DoubleBits, rest: seq<Byte>)
    requires IsBytes(s) && |s| < U64 && Stands(input, pos, ValueBytes(Text(s), d), rest)
    ensures ReadValue(input, pos, d) == Some((Text(s), pos + 1 + |StringBytes(s)|))
  {
    hide ReadBlob, StringBytes, Bytes, IsBytes, Stands;
    TagStands(input, pos, 3, StringBytes(s), rest);
    StringReadsBack(input, pos + 1, s, rest);
  }

  lemma BoolReadsBack(input: seq<Byte>, pos: nat, b: bool, d: DoubleBits, rest: seq<Byte>)
    requires Stands(input, pos, ValueBytes(Bool(b), d), rest)
    ensures ReadValue(input, pos, d) == Some((Bool(b), pos + 2))
  {
    var body: seq<Byte> := [if b then 1 else 0];
    assert ValueBytes(Bool(b), d) == [4] + body;
    TagStands(input, pos, 4, body, rest);
    Behind(input, pos + 1, body, rest);
    hide Stands;
    assert input[pos + 1] == input[pos + 1..pos + 1 + |body|][0] == body[0];
  }

  lemma BlobValueReadsBack(input: seq<Byte>, pos: nat, bs: seq<Byte>, d: DoubleBits, rest: seq<Byte>)
    requires |bs| < U64 && Stands(input, pos, ValueBytes(Blob(bs), d), rest)
    ensures ReadValue(input, pos, d) == Some((Blob(bs), pos + 9 + |bs|))
  {
    hide ReadBlob, U64Bytes, Stands;
    assert [5] + U64Bytes(|bs|) + bs == [5] + (U64Bytes(|bs|) + bs);
    TagStands(input, pos, 5, U64Bytes(|bs|) + bs, rest);
    BlobReadsBack(input, pos + 1, bs, rest);
  }

  lemma ValueReadsBack(input: seq<Byte>, pos: nat, v: Value, d: DoubleBits, rest: seq<Byte>)
    requires ValueFits(v, d) && Stands(input, pos, ValueBytes(v, d), rest)
    ensures ReadValue(input, pos, d) == Some((v, pos + |ValueBytes(v, d)|))
    ensures input[pos + |ValueBytes(v, d)|..] == rest
  {
    hide U64Bytes, ReadValue, StringBytes, IsBytes;
    Behind(input, pos, ValueBytes(v, d), rest);
    match v
    case Null => NullReadsBack(input, pos, d, rest);
    case Int(i) => IntReadsBack(input, pos, i, d, rest);
    case Double(x) => DoubleReadsBack(input, pos, x, d, rest);
    case Text(s) => TextReadsBack(input, pos, s, d, rest);
    case Bool(b) => BoolReadsBack(input, pos, b, d, rest);
    case Blob(bs) => BlobValueReadsBack(input, pos, bs, d, rest);
  }

  lemma NullReadsBack(input: seq<Byte>, pos: nat, d: DoubleBits, rest: seq<Byte>)
    requires Stands(input, pos, [0], rest)
    ensures ReadValue(input, pos, d) == Some((Null, pos + 1))
  {
    assert [0] + [] == [0];
    TagStands(input, pos, 0, [], rest);
  }

  /** `acc` with the fields of the row that are named. */
  function Extended(acc: Columns, row: Columns, names: seq<string>): Columns
    requires forall n | n in names :: n in row
    decreases |names|
  {
    if names == [] then acc else Extended(acc[names[0] := row[names[0]]], row, names[1..])
  }

  lemma {:induction false} ExtendedIs(acc: Columns, row: Columns, names: seq<string>)
    requires forall n | n in names :: n in row
    requires forall n | n in acc :: n in row && acc[n] == row[n]
    requires forall n | n in row :: n in acc || n in names
    ensures Extended(acc, row, names) == row
    decreases |names|
  {
    if names == [] {
      assert acc.Keys == row.Keys;
    } else {
      assert forall n | n in names :: n == names[0] || n in names[1..];
      ExtendedIs(acc[names[0] := row[names[0]]], row, names[1..]);
    }
  }

  /** One field, and then whatever follows it. */
  lemma FieldReadsBack(input: seq<Byte>, pos: nat, name: string, v: Value, d: DoubleBits, rest: seq<Byte>)
    requires IsBytes(name) && |name| < U64 && ValueFits(v, d)
    requires Stands(input, pos, FieldBytes(name, v, d), rest)
    ensures var p1, p2 := pos + |StringBytes(name)|, pos + |FieldBytes(name, v, d)|;
            && ReadBlob(input, pos) == Some((Bytes(name), p1)) && Chars(Bytes(name)) == name
            && ReadValue(input, p1, d) == Some((v, p2))
            && p2 <= |input| && input[p2..] == rest
  {
    hide ReadBlob, ReadValue, StringBytes, ValueBytes, IsBytes;
    assert FieldBytes(name, v, d) + rest == StringBytes(name) + (ValueBytes(v, d) + rest);
    StringReadsBack(input, pos, name, ValueBytes(v, d) + rest);
    ValueReadsBack(input, pos + |StringBytes(name)|, v, d, rest);
  }

  lemma {:induction false} FieldsReadBack(input: seq<Byte>, pos: nat, acc: Columns, row: Columns, names: seq<string>,
                                          d: DoubleBits, rest: seq<Byte>)
    requires RowFits(row, d) && TextsInBytes(row) && (forall n | n in names :: n in row && n !in acc)
    requires forall i, j | 0 <= i < j < |names| :: names[i] != names[j]
    requires Stands(input, pos, FieldsBytes(row, names, d), rest)
    ensures ReadFields(input, pos, |names|, acc, d)
            == Some((Extended(acc, row, names), pos + |FieldsBytes(row, names, d)|))
    ensures pos + |FieldsBytes(row, names, d)| <= |input| && input[pos + |FieldsBytes(row, names, d)|..] == rest
    decreases |names|
  {
    hide ReadBlob, ReadValue, ReadFields, FieldBytes, StringBytes, Chars, Bytes, ValueFits, RowFits, IsBytes;
    Behind(input, pos, FieldsBytes(row, names, d), rest);
    if names == [] {
      NoFields(input, pos, acc, d);
    } else {
      var name, tail := names[0], names[1..];
      NotAgain(names);
      assert name in names && forall n | n in tail :: n in names;
      FieldFits(row, name, d);
      var v, acc' := row[name], acc[name := row[name]];
      var field, fields := FieldBytes(name, v, d), FieldsBytes(row, tail, d);
      assert FieldsBytes(row, names, d) + rest == field + (fields + rest);
      FieldReadsBack(input, pos, name, v, d, fields + rest);
      FieldsReadBack(input, pos + |field|, acc', row, tail, d, rest);
      OneField(input, pos, |names|, acc, d, name, v, pos + |StringBytes(name)|, pos + |field|);
      assert Extended(acc, row, names) == Extended(acc', row, tail);
    }
  }

  lemma FieldFits(row: Columns, name: string, d: DoubleBits)
    requires RowFits(row, d) && name in row
    ensures IsBytes(name) && |name| < U64 && ValueFits(row[name], d) && (row[name].Text? ==> IsBytes(row[name].s))
  {}

  lemma CountFits(row: Columns, d: DoubleBits)
    requires RowFits(row, d)
    ensures |row| < U64
  {}

  lemma NoFields(input: seq<Byte>, pos: nat, acc: Columns, d: DoubleBits)
    requires pos <= |input|
    ensures ReadFields(input, pos, 0, acc, d) == Some((acc, pos))
  {}

  lemma OneField(input: seq<Byte>, pos: nat, count: nat, acc: Columns, d: DoubleBits,
                 name: string, v: Value, p1: nat, p2: nat)
    requires count > 0 && pos <= |input| && p2 <= |input| && IsBytes(name) && name !in acc
    requires ReadBlob(input, pos) == Some((Bytes(name), p1)) && Chars(Bytes(name)) == name
    requires ReadValue(input, p1, d) == Some((v, p2))
    ensures ReadFields(input, pos, count, acc, d) == ReadFields(input, p2, count - 1, acc[name := v], d)
  {
    hide ReadBlob, ReadValue, Chars, Bytes;
  }

  lemma NotAgain(names: seq<string>)
    requires names != [] && forall i, j | 0 <= i < j < |names| :: names[i] != names[j]
    ensures names[0] !in names[1..]
    ensures forall i, j | 0 <= i < j < |names[1..]| :: names[1..][i] != names[1..][j]
  {}

  lemma NamesCount(names: seq<string>, row: Columns)
    requires Sorted(names, row)
    ensures |names| == |row| && forall i, j | 0 <= i < j < |names| :: names[i] != names[j]
  {
    ByNameIsStrict();
    forall i, j | 0 <= i < j < |names|
      ensures names[i] != names[j]
    {
      assert ByName()(names[i], names[j]);
    }
    CountDistinct(names, row.Keys);
  }

  lemma {:induction false} CountDistinct(names: seq<string>, s: set<string>)
    requires forall i, j | 0 <= i < j < |names| :: names[i] != names[j]
    requires forall n :: n in names <==> n in s
    ensures |names| == |s|
  {
    EmptyOrNot(names);
    if names == [] {
      assert s == {};
    } else {
      var init, last := names[..|names| - 1], names[|names| - 1];
      assert names == init + [last];
      CountDistinct(init, s - {last});
    }
  }

  lemma RowReadsBack(input: seq<Byte>, pos: nat, row: Columns, names: seq<string>, d: DoubleBits, rest: seq<Byte>)
    requires RowFits(row, d) && TextsInBytes(row) && Sorted(names, row)
    requires Stands(input, pos, U64Bytes(|names|) + FieldsBytes(row, names, d), rest)
    ensures var size := 8 + |FieldsBytes(row, names, d)|;
            && ReadRow(input, pos, d) == (if |row| <= LIMIT then Some((row, pos + size)) else None)
            && pos + size <= |input| && input[pos + size..] == rest
  {
    hide U64Bytes, ReadU64, FieldsBytes, ReadFields, Strictly, ByName, RowFits, TextsInBytes;
    NamesCount(names, row);
    CountFits(row, d);
    assert U64Bytes(|names|) + FieldsBytes(row, names, d) + rest
        == U64Bytes(|names|) + (FieldsBytes(row, names, d) + rest);
    U64ReadsBack(input, pos, |names|, FieldsBytes(row, names, d) + rest);
    assert Stands(input, pos + 8, FieldsBytes(row, names, d), rest);
    FieldsReadBack(input, pos + 8, map[], row, names, d, rest);
    ExtendedIs(map[], row, names);
  }

  lemma TailNamed(rows: seq<Columns>, names: seq<seq<string>>, d: DoubleBits)
    requires rows != [] && NamesOf(names, rows)
    requires forall i | 0 <= i < |rows| :: RowFits(rows[i], d) && TextsInBytes(rows[i])
    ensures NamesOf(names[1..], rows[1..])
    ensures forall i | 0 <= i < |rows[1..]| :: RowFits(rows[1..][i], d) && TextsInBytes(rows[1..][i])
  {
    hide RowFits, TextsInBytes, Sorted;
    assert forall i | 0 <= i < |rows[1..]| :: rows[1..][i] == rows[i + 1] && names[1..][i] == names[i + 1];
  }

  lemma {:induction false} RowsReadBack(input: seq<Byte>, pos: nat, acc: seq<Columns>, rows: seq<Columns>,
                                        names: seq<seq<string>>, d: DoubleBits, rest: seq<Byte>)
    requires NamesOf(names, rows) && forall i | 0 <= i < |rows| :: RowFits(rows[i], d) && TextsInBytes(rows[i])
    requires Stands(input, pos, RowsBytes(rows, names, d), rest)
    ensures var end := pos + |RowsBytes(rows, names, d)|;
            && ReadRows(input, pos, |rows|, acc, d)
               == (if forall i | 0 <= i < |rows| :: |rows[i]| <= LIMIT then Some((acc + rows, end)) else None)
            && end <= |input| && input[end..] == rest
    decreases |rows|
  {
    hide U64Bytes, ReadRow, FieldsBytes, RowFits, TextsInBytes, Strictly, ByName;
    Behind(input, pos, RowsBytes(rows, names, d), rest);
    if rows == [] {
      assert acc + rows == acc;
    } else {
      TailNamed(rows, names, d);
      var first, tail := U64Bytes(|names[0]|) + FieldsBytes(rows[0], names[0], d), RowsBytes(rows[1..], names[1..], d);
      assert RowsBytes(rows, names, d) + rest == first + (tail + rest);
      RowReadsBack(input, pos, rows[0], names[0], d, tail + rest);
      RowsReadBack(input, pos + |first|, acc + [rows[0]], rows[1..], names[1..], d, rest);
      assert acc + [rows[0]] + rows[1..] == acc + rows;
      LimitStep(rows);
    }
  }

  lemma LimitStep(rows: seq<Columns>)
    requires rows != []
    ensures (forall i | 0 <= i < |rows| :: |rows[i]| <= LIMIT)
       <==> |rows[0]| <= LIMIT && forall i | 0 <= i < |rows[1..]| :: |rows[1..][i]| <= LIMIT
  {
    assert forall i | 0 <= i < |rows[1..]| :: rows[1..][i] == rows[i + 1];
    if forall i | 0 <= i < |rows[1..]| :: |rows[1..][i]| <= LIMIT {
      forall i | 1 <= i < |rows|
        ensures |rows[i]| <= LIMIT
      {
        assert rows[1..][i - 1] == rows[i];
      }
    }
  }

  /** What was encoded decodes to itself, if it is within the limits; otherwise it does not decode at all. */
  lemma CacheReadsBack(r: QueryResult, names: seq<seq<string>>, d: DoubleBits)
    requires Fits(r, d) && NamesOf(names, r.rows) && forall i | 0 <= i < |r.rows| :: TextsInBytes(r.rows[i])
    ensures ReadResult(ResultBytes(r, names, d), d) == if WithinLimit(r) then Some(r) else None
  {
    hide U64Bytes, ReadU64, ReadRows, RowsBytes, MagicBytes, RowFits, ToSigned, ToUnsigned;
    var input := ResultBytes(r, names, d);
    var count, rows := U64Bytes(|r.rows|), RowsBytes(r.rows, names, d);
    var affected, last := U64Bytes(ToUnsigned(r.affectedRows)), U64Bytes(ToUnsigned(r.lastInsertId));
    assert input == MagicBytes() + (count + (rows + (affected + (last + []))));
    assert input[..8] == MagicBytes() && input[8..] == count + (rows + (affected + (last + [])));
    U64ReadsBack(input, 8, |r.rows|, rows + (affected + (last + [])));
    if |r.rows| <= LIMIT {
      RowsReadBack(input, 16, [], r.rows, names, d, affected + (last + []));
      assert [] + r.rows == r.rows;
      var end := 16 + |rows|;
      SignedBack(r.affectedRows);
      SignedBack(r.lastInsertId);
      U64ReadsBack(input, end, ToUnsigned(r.affectedRows), last + []);
      U64ReadsBack(input, end + 8, ToUnsigned(r.lastInsertId), []);
    }
  }

  /** One row more than the limit: it is written, and cannot be read. */
  lemma OneRowTooMany(d: DoubleBits)
    ensures var r := QueryResult(seq(LIMIT + 1, _ => map[]), 0, 0);
            var names: seq<seq<string>> := seq(LIMIT + 1, _ => []);
            Fits(r, d) && NamesOf(names, r.rows) && ReadResult(ResultBytes(r, names, d), d) == None
  {
    var r := QueryResult(seq(LIMIT + 1, _ => map[]), 0, 0);
    var names: seq<seq<string>> := seq(LIMIT + 1, _ => []);
    hide ResultBytes, ReadResult;
    CacheReadsBack(r, names, d);
  }
}
