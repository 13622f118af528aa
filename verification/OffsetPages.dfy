/** Pages by number over the distinct root rows, with offsets of 64 bits. */
module OffsetPages {
  import opened Wrappers
  import opened Values
  import opened Decimals
  import opened Pages

  datatype NumberedPage = NumberedPage(items: seq<Columns>, total: nat, page: nat, size: nat)

  datatype NumberError = PageTooSmall | SizeTooSmall | NoRootKey | LengthError

  /** Page `page` of `u`, counting from 1. */
  function PageOf(u: seq<Columns>, page: nat, size: nat): seq<Columns>
    requires page >= 1
  {
    u[Min((page - 1) * size, |u|)..Min(page * size, |u|)]
  }

  function FirstPages(u: seq<Columns>, pages: nat, size: nat): seq<Columns> {
    if pages == 0 then [] else FirstPages(u, pages - 1, size) + PageOf(u, pages, size)
  }

  /** The pages in order make up the whole, each row on one page. */
  lemma {:induction false} PagesPartition(u: seq<Columns>, pages: nat, size: nat)
    ensures FirstPages(u, pages, size) == u[..Min(pages * size, |u|)]
  {
    if pages > 0 {
      PagesPartition(u, pages - 1, size);
      assert (pages - 1) * size <= pages * size;
    }
  }

  /** Where a page begins, in 64 bits. */
  function Offset(page: nat, size: nat): nat
    requires page >= 1
  {
    (page - 1) * size % U64
  }

  /** What is returned for a page of `n` rows: the positions from `from` to `to`, if they are in order. */
  function Shown(n: nat, page: nat, size: nat): (int, int)
    requires page >= 1
  {
    var offset := Offset(page, size);
    if offset >= n then (0, 0) else (offset, Min(n, (offset + size) % U64))
  }

  /** The third page of 2^63 rows each shows the first one: its offset is 2^64, which wraps around to 0. */
  lemma ThirdHugePage(u: seq<Columns>)
    requires 0 < |u| < I63
    ensures Shown(|u|, 3, I63) == (0, |u|) && u[0..|u|] != PageOf(u, 3, I63)
  {
    assert 2 * I63 == U64;
  }

  /** The page that is asked for is the page that is returned, exactly if its offset does not
      wrap around to a position within the rows. */
  method ExecutePaged(rows: seq<Columns>, column: string, page: nat, size: nat)
    returns (r: Result<NumberedPage, NumberError>)
    requires page < U64 && size < U64 && |rows| < I63
    ensures page < 1 ==> r == Err(PageTooSmall)
    ensures page >= 1 && size < 1 ==> r == Err(SizeTooSmall)
    ensures page >= 1 && size >= 1 && !HasColumn(rows, column) ==> r == Err(NoRootKey)
    ensures page >= 1 && size >= 1 && HasColumn(rows, column) ==>
              var u, wanted := DistinctRows(rows, column), (page - 1) * size;
              && (r.Ok? <==> Shown(|u|, page, size).0 <= Shown(|u|, page, size).1)
              && (r.Err? ==> r.error == LengthError)
              && (r.Ok? ==> r.value.total == |u| && r.value.page == page && r.value.size == size)
              && (r.Ok? ==> r.value.items == u[Shown(|u|, page, size).0..Shown(|u|, page, size).1])
              && (r.Ok? && r.value.items == PageOf(u, page, size) <==> wanted < U64 || wanted % U64 >= |u|)
  {
    if page < 1 { return Err(PageTooSmall); }
    if size < 1 { return Err(SizeTooSmall); }
    var distinct := DistinctRootRows(rows, column);
    if distinct.Err? { return Err(NoRootKey); }
    var unique := distinct.value;
    DistinctFits(rows, column);
    ghost var n := |unique|;
    ShownIsThePage(unique, page, size);
    hide PageOf, DistinctRows, Shown;
    var offset := Offset(page, size);
    ShownAt(n, page, size);
    if offset >= |unique| {
      assert unique[0..0] == [];
      return Ok(NumberedPage([], |unique|, page, size));
    }
    var end := Min(|unique|, (offset + size) % U64);
    if end < offset { return Err(LengthError); }
    var items := [];
    for i := offset to end
      invariant items == unique[offset..i]
    {
      items := items + [unique[i]];
    }
    return Ok(NumberedPage(items, |unique|, page, size));
  }

  lemma ShownAt(n: nat, page: nat, size: nat)
    requires page >= 1
    ensures Offset(page, size) >= n ==> Shown(n, page, size) == (0, 0)
    ensures Offset(page, size) < n
            ==> Shown(n, page, size) == (Offset(page, size), Min(n, (Offset(page, size) + size) % U64))
    ensures 0 <= Shown(n, page, size).0 <= n && 0 <= Shown(n, page, size).1 <= n
  {}

  /** What is shown is the page exactly if the offset does not wrap around to a position within the rows. */
  lemma ShownIsThePage(u: seq<Columns>, page: nat, size: nat)
    requires 1 <= page < U64 && 1 <= size < U64 && |u| < I63
    ensures var s, wanted := Shown(|u|, page, size), (page - 1) * size;
            s.0 <= s.1 && u[s.0..s.1] == PageOf(u, page, size) <==> wanted < U64 || wanted % U64 >= |u|
  {
    Offsets(page, size, |u|);
    var offset := Offset(page, size);
    if offset < |u| && (page - 1) * size >= U64 {
      assert PageOf(u, page, size) == [];
      assert (offset + size) % U64 != offset;
    }
  }

  lemma {:induction false} DistinctFits(rows: seq<Columns>, column: string)
    requires HasColumn(rows, column)
    ensures |DistinctRows(rows, column)| <= |rows|
  {
    if rows != [] {
      assert HasColumn(rows[..|rows| - 1], column);
      DistinctFits(rows[..|rows| - 1], column);
    }
  }

  /** Where the offset wraps around, the page is past the end, and the range that is taken is not empty. */
  lemma Offsets(page: nat, size: nat, n: nat)
    requires 1 <= page < U64 && 1 <= size < U64 && n < I63
    ensures page * size == (page - 1) * size + size
    ensures (page - 1) * size < U64 && (page - 1) * size < n ==>
              (page - 1) * size % U64 == (page - 1) * size && ((page - 1) * size + size) % U64 == page * size
    ensures (page - 1) * size >= U64 ==> Min((page - 1) * size, n) == Min(page * size, n) == n
    ensures var offset := (page - 1) * size % U64; offset < n ==> (offset + size) % U64 != offset
  {
    var wanted := (page - 1) * size;
    assert page * size == wanted + size;
    if wanted < n {
      if page == 1 {
        assert wanted == 0;
      } else {
        assert wanted == (page - 2) * size + size;
        assert (page - 2) * size >= 0;
      }
    }
  }
}
