/** Reading cached query results back. */
module CacheReader {
  import opened Wrappers
  import opened Values
  import opened Base64Url
  import opened Cursors
  import opened CacheCodec

  // ----- what the bytes at a position say, and the position after it; none if they are not well-formed

  function ReadU64(input: seq<Byte>, pos: nat): (r: Option<(nat, nat)>)
    ensures r.Some? ==> r.value.1 == pos + 8 <= |input|
  {
    if pos + 8 > |input| then None else Some((FromLittleEndian(input[pos..pos + 8]), pos + 8))
  }

  function ReadBlob(input: seq<Byte>, pos: nat): (r: Option<(seq<Byte>, nat)>)
    ensures r.Some? ==> pos < r.value.1 <= |input|
  {
    match ReadU64(input, pos)
    case None => None
    case Some((n, p)) => if n > |input| - p then None else Some((input[p..p + n], p + n))
  }

  function ReadValue(input: seq<Byte>, pos: nat, d: DoubleBits): (r: Option<(Value, nat)>)
    ensures r.Some? ==> pos < r.value.1 <= |input|
  {
    if pos >= |input| then None
    else
      match input[pos]
      case 0 => Some((Null, pos + 1))
      case 1 => (match ReadU64(input, pos + 1) case None => None case Some((n, p)) => Some((Int(ToSigned(n)), p)))
      case 2 => (match ReadU64(input, pos + 1) case None => None case Some((n, p)) => Some((Double(d.value(n)), p)))
      case 3 => (match ReadBlob(input, pos + 1) case None => None case Some((bs, p)) => Some((Text(Chars(bs)), p)))
      case 4 =>
        if pos + 1 >= |input| || input[pos + 1] > 1 then None else Some((Bool(input[pos + 1] == 1), pos + 2))
      case 5 => (match ReadBlob(input, pos + 1) case None => None case Some((bs, p)) => Some((Blob(bs), p)))
      case _ => None
  }

  function ReadCount(input: seq<Byte>, pos: nat): (r: Option<(nat, nat)>)
    ensures r.Some? ==> r.value.1 == pos + 8 <= |input| && r.value.0 <= LIMIT
  {
    match ReadU64(input, pos)
    case None => None
    case Some((n, p)) => if n > LIMIT then None else Some((n, p))
  }

  /** `count` more fields for the row. A name that the row has already is an error. */
  function ReadFields(input: seq<Byte>, pos: nat, count: nat, row: Columns, d: DoubleBits): (r: Option<(Columns, nat)>)
    requires pos <= |input|
    ensures r.Some? ==> r.value.1 <= |input|
    decreases count
  {
    if count == 0 then Some((row, pos))
    else
      match ReadBlob(input, pos)
      case None => None
      case Some((bs, p)) =>
        match ReadValue(input, p, d)
        case None => None
        case Some((v, next)) =>
          var name := Chars(bs);
          if name in row then None else ReadFields(input, next, count - 1, row[name := v], d)
  }

  function ReadRow(input: seq<Byte>, pos: nat, d: DoubleBits): (r: Option<(Columns, nat)>)
    ensures r.Some? ==> r.value.1 <= |input|
  {
    match ReadCount(input, pos)
    case None => None
    case Some((count, p)) => ReadFields(input, p, count, map[], d)
  }

  function ReadRows(input: seq<Byte>, pos: nat, count: nat, rows: seq<Columns>,
                    d: DoubleBits): (r: Option<(seq<Columns>, nat)>)
    requires pos <= |input|
    ensures r.Some? ==> r.value.1 <= |input|
    decreases count
  {
    if count == 0 then Some((rows, pos))
    else
      match ReadRow(input, pos, d)
      case None => None
      case Some((row, next)) => ReadRows(input, next, count - 1, rows + [row], d)
  }

  /** A whole payload: nothing may be left over. */
  function ReadResult(input: seq<Byte>, d: DoubleBits): Option<QueryResult> {
    if |input| < 8 || input[..8] != MagicBytes() then None
    else
      match ReadCount(input, 8)
      case None => None
      case Some((count, p1)) =>
        match ReadRows(input, p1, count, [], d)
        case None => None
        case Some((rows, p2)) =>
          match ReadU64(input, p2)
          case None => None
          case Some((affected, p3)) =>
            match ReadU64(input, p3)
            case None => None
            case Some((last, p4)) =>
              if p4 != |input| then None else Some(QueryResult(rows, ToSigned(affected), ToSigned(last)))
  }

  // ----- the reader

  class Reader {
    const input: seq<Byte>
    var position: nat

    ghost predicate Valid()
      reads this
    {
      position <= |input|
    }

    constructor (input: seq<Byte>)
      ensures Valid() && position == 0 && this.input == input
    {
      this.input := input;
      position := 0;
    }

    method NextByte() returns (b: Option<Byte>)
      requires Valid()
      modifies this
      ensures Valid() && (b.Some? <==> old(position) < |input|)
      ensures b.Some? ==> b.value == input[old(position)] && position == old(position) + 1
    {
      if position >= |input| { return None; }
      b := Some(input[position]);
      position := position + 1;
    }

    method NextU64() returns (n: Option<nat>)
      requires Valid()
      modifies this
      ensures Valid() && (n.Some? <==> ReadU64(input, old(position)).Some?)
      ensures n.Some? ==> ReadU64(input, old(position)) == Some((n.value, position))
    {
      if |input| - position < 8 { return None; }
      var value, scale := 0, 1;
      ghost var start := position;
      for i := 0 to 8
        invariant position == start + i && start + 8 <= |input| && scale == Power256(i)
        invariant FromLittleEndian(input[start..start + 8])
                  == value + scale * FromLittleEndian(input[start + i..start + 8])
      {
        var b := NextByte();
        var rest := input[start + i..start + 8];
        assert rest[0] == b.value && rest[1..] == input[start + i + 1..start + 8];
        Distribute(scale, b.value, FromLittleEndian(rest[1..]));
        value := value + scale * b.value;
        scale := 256 * scale;
      }
      assert input[start + 8..start + 8] == [];
      n := Some(value);
    }

    method NextBlob() returns (bs: Option<seq<Byte>>)
      requires Valid()
      modifies this
      ensures Valid() && (bs.Some? <==> ReadBlob(input, old(position)).Some?)
      ensures bs.Some? ==> ReadBlob(input, old(position)) == Some((bs.value, position))
    {
      var size := NextU64();
      if size.None? || size.value > |input| - position { return None; }
      bs := Some(input[position..position + size.value]);
      position := position + size.value;
    }

    method NextValue(d: DoubleBits) returns (v: Option<Value>)
      requires Valid()
      modifies this
      ensures Valid() && (v.Some? <==> ReadValue(input, old(position), d).Some?)
      ensures v.Some? ==> ReadValue(input, old(position), d) == Some((v.value, position))
    {
      hide ReadU64, ReadBlob;
      var tag := NextByte();
      if tag.None? { return None; }
      match tag.value {
        case 0 => v := Some(Null);
        case 1 =>
          var n := NextU64();
          v := if n.None? then None else Some(Int(ToSigned(n.value)));
        case 2 =>
          var n := NextU64();
          v := if n.None? then None else Some(Double(d.value(n.value)));
        case 3 =>
          var bs := NextBlob();
          v := if bs.None? then None else Some(Text(Chars(bs.value)));
        case 4 =>
          var b := NextByte();
          v := if b.None? || b.value > 1 then None else Some(Bool(b.value == 1));
        case 5 =>
          var bs := NextBlob();
          v := if bs.None? then None else Some(Blob(bs.value));
        case _ => v := None;
      }
    }

    method NextCount() returns (n: Option<nat>)
      requires Valid()
      modifies this
      ensures Valid() && (n.Some? <==> ReadCount(input, old(position)).Some?)
      ensures n.Some? ==> ReadCount(input, old(position)) == Some((n.value, position))
    {
      n := NextU64();
      if n.Some? && n.value > LIMIT { n := None; }
    }

    method NextRow(d: DoubleBits) returns (row: Option<Columns>)
      requires Valid()
      modifies this
      ensures Valid() && (row.Some? <==> ReadRow(input, old(position), d).Some?)
      ensures row.Some? ==> ReadRow(input, old(position), d) == Some((row.value, position))
    {
      hide ReadBlob, ReadValue, ReadCount;
      var count := NextCount();
      if count.None? { return None; }
      var fields: Columns := map[];
      ghost var start := position;
      for i := 0 to count.value
        invariant Valid()
        invariant ReadFields(input, position, count.value - i, fields, d)
                  == ReadFields(input, start, count.value, map[], d)
      {
        var name := NextBlob();
        if name.None? { return None; }
        var v := NextValue(d);
        if v.None? || Chars(name.value) in fields { return None; }
        fields := fields[Chars(name.value) := v.value];
      }
      row := Some(fields);
    }
  }

  lemma Distribute(s: nat, b: nat, r: nat)
    ensures s * (b + 256 * r) == s * b + 256 * s * r
  {}

  /** Fails, or has read the whole input and nothing beyond it. */
  method DecodeQueryResult(input: seq<Byte>, d: DoubleBits) returns (r: Option<QueryResult>, reader: Reader)
    ensures r == ReadResult(input, d)
    ensures reader.input == input && reader.position <= |input| && (r.Some? ==> reader.position == |input|)
  {
    hide ReadU64, ReadRow, ReadCount;
    reader := new Reader(input);
    for i := 0 to |MAGIC|
      invariant reader.Valid() && reader.position == i && fresh(reader) && reader.input == input
      invariant input[..i] == MagicBytes()[..i]
    {
      var b := reader.NextByte();
      if b.None? || b.value != MAGIC[i] as int {
        BadMagic(input, i);
        return None, reader;
      }
    }
    assert MagicBytes()[..8] == MagicBytes();
    var count := reader.NextCount();
    if count.None? { return None, reader; }
    ghost var start := reader.position;
    var rows := [];
    for i := 0 to count.value
      invariant reader.Valid() && fresh(reader) && reader.input == input && start <= |input|
      invariant ReadRows(input, reader.position, count.value - i, rows, d) == ReadRows(input, start, count.value, [], d)
    {
      var row := reader.NextRow(d);
      if row.None? { return None, reader; }
      rows := rows + [row.value];
    }
    var affected := reader.NextU64();
    if affected.None? { return None, reader; }
    var last := reader.NextU64();
    if last.None? || reader.position != |input| { return None, reader; }
    r := Some(QueryResult(rows, ToSigned(affected.value), ToSigned(last.value)));
  }

  lemma BadMagic(input: seq<Byte>, i: nat)
    requires i < 8 && (i >= |input| || input[i] != MAGIC[i] as int)
    ensures |input| < 8 || input[..8] != MagicBytes()
  {
    if |input| >= 8 { assert input[..8][i] == input[i] && MagicBytes()[i] == MAGIC[i] as int; }
  }
}
