/** The binary form of query results in a cache. */
module CacheCodec {
  import opened Values
  import opened Sorting
  import opened Base64Url
  import opened Decimals
  import opened Cursors

  const MAGIC: string := "MORMC001"
  const LIMIT: nat := 1000000

  datatype QueryResult = QueryResult(rows: seq<Columns>, affectedRows: int, lastInsertId: int)

  /** The 64 bits of a double, and back. */
  datatype DoubleBits = DoubleBits(bits: real -> nat, value: nat -> real)

  // ----- numbers

  /** `k` bytes, the lowest first. */
  function LittleEndian(n: nat, k: nat): (bs: seq<Byte>)
    ensures |bs| == k
  {
    if k == 0 then [] else [n % 256] + LittleEndian(n / 256, k - 1)
  }

  function FromLittleEndian(bs: seq<Byte>): nat {
    if bs == [] then 0 else bs[0] + 256 * FromLittleEndian(bs[1..])
  }

  function Power256(k: nat): nat { if k == 0 then 1 else 256 * Power256(k - 1) }

  lemma {:induction false} LittleEndianBack(n: nat, k: nat)
    requires n < Power256(k)
    ensures FromLittleEndian(LittleEndian(n, k)) == n
  {
    if k > 0 {
      assert n / 256 < Power256(k - 1);
      LittleEndianBack(n / 256, k - 1);
      assert LittleEndian(n, k)[1..] == LittleEndian(n / 256, k - 1);
    }
  }

  lemma Power8()
    ensures Power256(8) == U64
  {
    assert Power256(4) == 0x1_0000_0000;
    assert Power256(8) == 256 * (256 * (256 * (256 * Power256(4))));
  }

  function U64Bytes(n: nat): (bs: seq<Byte>)
    ensures |bs| == 8
  {
    LittleEndian(n, 8)
  }

  lemma U64Back(n: nat)
    requires n < U64
    ensures FromLittleEndian(U64Bytes(n)) == n
  {
    Power8();
    LittleEndianBack(n, 8);
  }

  function ToUnsigned(i: int): nat { i % U64 }

  function ToSigned(n: nat): int { if n < I63 then n else n - U64 }

  // ----- writing

  function StringBytes(s: string): seq<Byte>
    requires IsBytes(s)
  {
    U64Bytes(|s|) + Bytes(s)
  }

  function ValueBytes(v: Value, d: DoubleBits): seq<Byte>
    requires v.Text? ==> IsBytes(v.s)
  {
    match v
    case Null => [0]
    case Int(i) => [1] + U64Bytes(ToUnsigned(i))
    case Double(x) => [2] + U64Bytes(d.bits(x))
    case Text(s) => [3] + StringBytes(s)
    case Bool(b) => [4, if b then 1 else 0]
    case Blob(bs) => [5] + U64Bytes(|bs|) + bs
  }

  /** Byte order on strings. */
  predicate StringLess(a: string, b: string) {
    b != [] && (a == [] || a[0] < b[0] || (a[0] == b[0] && StringLess(a[1..], b[1..])))
  }

  lemma {:induction false} StringTransitive(a: string, b: string, c: string)
    requires StringLess(a, b) && StringLess(b, c)
    ensures StringLess(a, c)
  {
    if a != [] && a[0] == b[0] && b[0] == c[0] { StringTransitive(a[1..], b[1..], c[1..]); }
  }

  lemma {:induction false} StringTotal(a: string, b: string)
    ensures !StringLess(a, a)
    ensures a == b || StringLess(a, b) || StringLess(b, a)
  {
    if a != [] {
      StringTotal(a[1..], if b != [] then b[1..] else []);
      if b != [] && a[0] == b[0] { assert a == [a[0]] + a[1..] && b == [b[0]] + b[1..]; }
    }
  }

  function ByName(): (string, string) -> bool { (a: string, b: string) => StringLess(a, b) }

  lemma ByNameIsStrict()
    ensures StrictOrder(ByName())
  {
    forall a, b, c
      ensures !ByName()(a, a)
      ensures ByName()(a, b) && ByName()(b, c) ==> ByName()(a, c)
      ensures a == b || ByName()(a, b) || ByName()(b, a)
    {
      StringTotal(a, b);
      if StringLess(a, b) && StringLess(b, c) { StringTransitive(a, b, c); }
    }
  }

  /** The names of the columns of a row, in byte order. */
  ghost predicate Sorted(names: seq<string>, row: Columns) {
    Strictly(names, ByName()) && forall n :: n in names <==> n in row
  }

  predicate TextsInBytes(row: Columns) {
    forall n | n in row :: IsBytes(n) && (row[n].Text? ==> IsBytes(row[n].s))
  }

  function FieldBytes(name: string, v: Value, d: DoubleBits): seq<Byte>
    requires IsBytes(name) && (v.Text? ==> IsBytes(v.s))
  {
    StringBytes(name) + ValueBytes(v, d)
  }

  function FieldsBytes(row: Columns, names: seq<string>, d: DoubleBits): seq<Byte>
    requires TextsInBytes(row) && forall n | n in names :: n in row
  {
    if names == [] then [] else FieldBytes(names[0], row[names[0]], d) + FieldsBytes(row, names[1..], d)
  }

  ghost predicate NamesOf(names: seq<seq<string>>, rows: seq<Columns>) {
    |names| == |rows| && forall i | 0 <= i < |rows| :: Sorted(names[i], rows[i])
  }

  ghost function RowsBytes(rows: seq<Columns>, names: seq<seq<string>>, d: DoubleBits): seq<Byte>
    requires NamesOf(names, rows) && forall i | 0 <= i < |rows| :: TextsInBytes(rows[i])
  {
    if rows == [] then []
    else U64Bytes(|names[0]|) + FieldsBytes(rows[0], names[0], d) + RowsBytes(rows[1..], names[1..], d)
  }

  ghost function ResultBytes(r: QueryResult, names: seq<seq<string>>, d: DoubleBits): seq<Byte>
    requires NamesOf(names, r.rows) && forall i | 0 <= i < |r.rows| :: TextsInBytes(r.rows[i])
  {
    MagicBytes() + U64Bytes(|r.rows|) + RowsBytes(r.rows, names, d)
    + U64Bytes(ToUnsigned(r.affectedRows)) + U64Bytes(ToUnsigned(r.lastInsertId))
  }

  function MagicBytes(): (bs: seq<Byte>)
    ensures |bs| == 8
  {
    assert IsBytes(MAGIC);
    Bytes(MAGIC)
  }

  /** The names of a row can be listed in one way only. */
  lemma SortedOnce(a: seq<string>, b: seq<string>, row: Columns)
    requires Sorted(a, row) && Sorted(b, row)
    ensures a == b
  {
    ByNameIsStrict();
    StrictlyOnce(a, b, ByName());
  }

  /** The form depends on the contents of the rows alone. */
  lemma FormIsUnique(r: QueryResult, a: seq<seq<string>>, b: seq<seq<string>>, d: DoubleBits)
    requires NamesOf(a, r.rows) && NamesOf(b, r.rows) && forall i | 0 <= i < |r.rows| :: TextsInBytes(r.rows[i])
    ensures ResultBytes(r, a, d) == ResultBytes(r, b, d)
  {
    forall i | 0 <= i < |r.rows|
      ensures a[i] == b[i]
    {
      SortedOnce(a[i], b[i], r.rows[i]);
    }
    assert a == b;
  }

  lemma LowestFirst(out: seq<Byte>, value: nat, k: nat)
    requires k > 0
    ensures out + LittleEndian(value, k) == out + [value % 256] + LittleEndian(value / 256, k - 1)
  {
    assert LittleEndian(value, k) == [value % 256] + LittleEndian(value / 256, k - 1);
  }

  /** Tag and payload. */
  lemma ValueForm(v: Value, d: DoubleBits)
    requires v.Text? ==> IsBytes(v.s)
    ensures ValueBytes(v, d) ==
              match v
              case Null => [0]
              case Int(i) => [1] + U64Bytes(ToUnsigned(i))
              case Double(x) => [2] + U64Bytes(d.bits(x))
              case Text(s) => [3] + StringBytes(s)
              case Bool(b) => [4] + [if b then 1 else 0]
              case Blob(bs) => [5] + (U64Bytes(|bs|) + bs)
  {}

  class Writer {
    var out: seq<Byte>

    constructor ()
      ensures out == []
    {
      out := [];
    }

    method WriteByte(b: Byte)
      modifies this
      ensures out == old(out) + [b]
    {
      out := out + [b];
    }

    method WriteU64(n: nat)
      modifies this
      ensures out == old(out) + U64Bytes(n)
    {
      var value, k := n, 8;
      while k > 0
        invariant k >= 0 && old(out) + U64Bytes(n) == out + LittleEndian(value, k)
      {
        LowestFirst(out, value, k);
        WriteByte(value % 256);
        value := value / 256;
        k := k - 1;
      }
    }

    method WriteBytes(s: string)
      requires IsBytes(s)
      modifies this
      ensures out == old(out) + StringBytes(s)
    {
      WriteU64(|s|);
      out := out + Bytes(s);
    }

    method WriteBlob(bs: seq<Byte>)
      modifies this
      ensures out == old(out) + (U64Bytes(|bs|) + bs)
    {
      WriteU64(|bs|);
      ghost var head := out;
      for i := 0 to |bs|
        invariant out == head + bs[..i]
      {
        out := out + [bs[i]];
      }
      assert bs[..|bs|] == bs;
    }

    method WriteValue(v: Value, d: DoubleBits)
      requires v.Text? ==> IsBytes(v.s)
      modifies this
      ensures out == old(out) + ValueBytes(v, d)
    {
      hide U64Bytes, StringBytes, IsBytes, ValueBytes, ToUnsigned;
      ValueForm(v, d);
      match v {
        case Null => WriteByte(0);
        case Int(i) =>
          WriteByte(1);
          WriteU64(ToUnsigned(i));
        case Double(x) =>
          WriteByte(2);
          WriteU64(d.bits(x));
        case Text(s) =>
          WriteByte(3);
          WriteBytes(s);
        case Bool(b) =>
          WriteByte(4);
          WriteByte(if b then 1 else 0);
        case Blob(bs) =>
          WriteByte(5);
          WriteBlob(bs);
      }
    }

    /** The fields of one row, in whatever order the row yields them. */
    method WriteRow(row: Columns, d: DoubleBits) returns (ghost names: seq<string>)
      requires TextsInBytes(row)
      modifies this
      ensures Sorted(names, row)
      ensures out == old(out) + (U64Bytes(|names|) + FieldsBytes(row, names, d))
    {
      hide U64Bytes, FieldsBytes, StrictOrder, StrictWeak, Strictly, Ascending, StringLess, ByName, TextsInBytes;
      var fields := NamesInSomeOrder(row);
      ByNameIsStrict();
      StrictIsWeak(ByName());
      var sorted := Sort(fields, ByName());
      SortedFields(fields, sorted, row);
      names := sorted;
      WriteU64(|sorted|);
      WriteFields(row, sorted, d);
    }

    method WriteFields(row: Columns, names: seq<string>, d: DoubleBits)
      requires TextsInBytes(row) && forall n | n in names :: n in row
      modifies this
      ensures out == old(out) + FieldsBytes(row, names, d)
    {
      hide StringBytes, ValueBytes, IsBytes;
      assert names[0..] == names;
      for i := 0 to |names|
        invariant old(out) + FieldsBytes(row, names, d) == out + FieldsBytes(row, names[i..], d)
      {
        assert names[i] in names;
        FieldsStep(row, names, i, out, d);
        WriteBytes(names[i]);
        WriteValue(row[names[i]], d);
      }
      assert names[|names|..] == [] && out + [] == out;
    }
  }

  lemma FieldsStep(row: Columns, names: seq<string>, i: nat, out: seq<Byte>, d: DoubleBits)
    requires TextsInBytes(row) && (forall n | n in names :: n in row) && i < |names|
    ensures IsBytes(names[i]) && (row[names[i]].Text? ==> IsBytes(row[names[i]].s))
    ensures out + FieldsBytes(row, names[i..], d)
         == out + StringBytes(names[i]) + ValueBytes(row[names[i]], d) + FieldsBytes(row, names[i + 1..], d)
  {
    hide StringBytes, ValueBytes, IsBytes;
    assert names[i] in names;
    assert names[i..][0] == names[i] && names[i..][1..] == names[i + 1..];
    Assoc(out, StringBytes(names[i]), ValueBytes(row[names[i]], d), FieldsBytes(row, names[i + 1..], d));
  }

  lemma Assoc(a: seq<Byte>, b: seq<Byte>, c: seq<Byte>, e: seq<Byte>)
    ensures a + ((b + c) + e) == a + b + c + e
  {}

  /** An unordered map yields its keys in an order of its own. */
  method NamesInSomeOrder(row: Columns) returns (names: seq<string>)
    ensures (forall n :: n in names <==> n in row) && forall i, j | 0 <= i < j < |names| :: names[i] != names[j]
  {
    names := [];
    var todo := row.Keys;
    while todo != {}
      invariant todo <= row.Keys
      invariant forall n :: n in names <==> n in row && n !in todo
      invariant forall i, j | 0 <= i < j < |names| :: names[i] != names[j]
    {
      var n :| n in todo;
      names := names + [n];
      todo := todo - {n};
    }
  }

  lemma SortedFields(fields: seq<string>, sorted: seq<string>, row: Columns)
    requires (forall n :: n in fields <==> n in row) && forall i, j | 0 <= i < j < |fields| :: fields[i] != fields[j]
    requires multiset(sorted) == multiset(fields) && Ascending(sorted, ByName())
    ensures Sorted(sorted, row)
  {
    ByNameIsStrict();
    SameMembers(fields, sorted);
    var apart := (a: string, b: string) => a != b;
    assert PairwiseApart(fields, apart);
    PermutationKeepsApart(fields, sorted, apart);
    forall i, j | 0 <= i < j < |sorted|
      ensures ByName()(sorted[i], sorted[j])
    {
      assert apart(sorted[i], sorted[j]) && !ByName()(sorted[j], sorted[i]);
    }
  }

  /** The bytes of a result, the same for every order in which its rows yield their fields. */
  method EncodeQueryResult(r: QueryResult, d: DoubleBits) returns (bytes: seq<Byte>, ghost names: seq<seq<string>>)
    requires forall i | 0 <= i < |r.rows| :: TextsInBytes(r.rows[i])
    ensures NamesOf(names, r.rows) && bytes == ResultBytes(r, names, d)
  {
    hide LittleEndian, FieldsBytes, Sorted, TextsInBytes;
    var writer := new Writer();
    for i := 0 to |MAGIC|
      invariant writer.out == MagicBytes()[..i] && fresh(writer)
    {
      writer.WriteByte(MAGIC[i] as int);
    }
    assert MagicBytes()[..8] == MagicBytes();
    writer.WriteU64(|r.rows|);
    names := WriteRows(writer, r.rows, d);
    writer.WriteU64(ToUnsigned(r.affectedRows));
    writer.WriteU64(ToUnsigned(r.lastInsertId));
    bytes := writer.out;
  }

  method WriteRows(writer: Writer, rows: seq<Columns>, d: DoubleBits) returns (ghost names: seq<seq<string>>)
    requires forall i | 0 <= i < |rows| :: TextsInBytes(rows[i])
    modifies writer
    ensures NamesOf(names, rows) && writer.out == old(writer.out) + RowsBytes(rows, names, d)
  {
    hide FieldsBytes, RowsBytes, U64Bytes;
    names := [];
    NoRows(d);
    assert rows[..0] == [] && writer.out + [] == writer.out;
    for i := 0 to |rows|
      invariant NamesOf(names, rows[..i])
      invariant writer.out == old(writer.out) + RowsBytes(rows[..i], names, d)
    {
      ghost var before := writer.out;
      ghost var list := writer.WriteRow(rows[i], d);
      RowsSnoc(rows, i, names, list, d);
      Assoc3(old(writer.out), RowsBytes(rows[..i], names, d), U64Bytes(|list|) + FieldsBytes(rows[i], list, d));
      names := names + [list];
    }
    assert rows[..|rows|] == rows;
  }

  lemma NoRows(d: DoubleBits)
    ensures NamesOf([], []) && RowsBytes([], [], d) == []
  {}

  lemma Assoc3(a: seq<Byte>, b: seq<Byte>, c: seq<Byte>)
    ensures (a + b) + c == a + (b + c)
  {}

  lemma {:induction false} RowsSnoc(rows: seq<Columns>, i: nat, names: seq<seq<string>>, list: seq<string>,
                                    d: DoubleBits)
    requires i < |rows| && NamesOf(names, rows[..i]) && Sorted(list, rows[i])
    requires forall j | 0 <= j < |rows| :: TextsInBytes(rows[j])
    ensures NamesOf(names + [list], rows[..i + 1])
    ensures RowsBytes(rows[..i + 1], names + [list], d)
         == RowsBytes(rows[..i], names, d) + (U64Bytes(|list|) + FieldsBytes(rows[i], list, d))
    decreases i
  {
    hide FieldsBytes, U64Bytes;
    var more, all := rows[..i + 1], names + [list];
    assert NamesOf(all, more);
    if i == 0 {
      assert more[1..] == [] && all[1..] == [];
      assert RowsBytes(more[1..], all[1..], d) == [];
      assert RowsBytes(rows[..i], names, d) == [];
    } else {
      assert forall j | 0 <= j < |rows| - 1 :: rows[1..][j] == rows[j + 1];
      assert rows[..i][1..] == rows[1..][..i - 1] && more[1..] == rows[1..][..i];
      assert all[1..] == names[1..] + [list];
      RowsSnoc(rows[1..], i - 1, names[1..], list, d);
      Assoc3(U64Bytes(|names[0]|) + FieldsBytes(rows[0], names[0], d), RowsBytes(rows[..i][1..], names[1..], d),
             U64Bytes(|list|) + FieldsBytes(rows[i], list, d));
    }
  }
}
