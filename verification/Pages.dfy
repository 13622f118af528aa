/** Keyset pages: what one page returns, and that pages chained by their cursors enumerate
    the whole result. */
module Pages {
  import opened Wrappers
  import opened Values
  import opened Sorting
  import opened Base64Url
  import opened Decimals
  import opened Cursors
  import opened KeysetOrder

  /** A size in 64 bits. */
  type Size = n: int | 0 <= n < U64

  datatype PageOptions = PageOptions(first: Option<Size>, after: Option<string>, last: Option<Size>,
                                     before: Option<string>)

  datatype PageInfo = PageInfo(hasNext: bool, hasPrevious: bool, start: Option<string>, end: Option<string>)

  datatype Page = Page(items: seq<Columns>, info: PageInfo)

  datatype PageError =
    | NoOrder | FirstAndLast | AfterAndBefore | NeitherFirstNorLast | EmptyPage
    | BadCursor(error: CursorError) | SignatureMismatch | MissingRootKey | MissingOrderColumn | NullInOrder

  // ----- the query

  function KeyList(rows: seq<Columns>, order: seq<OrderTerm>): (ks: seq<seq<Value>>)
    ensures |ks| == |rows| && forall i | 0 <= i < |ks| :: ks[i] == KeysOf(rows[i], order)
  {
    seq(|rows|, i requires 0 <= i < |rows| => KeysOf(rows[i], order))
  }

  function RowLess(lt: Compare, order: seq<OrderTerm>): (Columns, Columns) -> bool {
    (r: Columns, s: Columns) => Before(lt, order, KeysOf(r, order), KeysOf(s, order))
  }

  /** The row passes the WHERE clause, if there is one. */
  predicate Kept(lt: Compare, where: Option<Where>, params: seq<Value>, row: Columns) {
    where.Some? ==> Holds(lt, row, params, where.value)
  }

  function Filtered(lt: Compare, where: Option<Where>, params: seq<Value>, rows: seq<Columns>): seq<Columns> {
    if rows == [] then []
    else
      var rest := Filtered(lt, where, params, rows[..|rows| - 1]);
      var last := rows[|rows| - 1];
      if Kept(lt, where, params, last) then rest + [last] else rest
  }

  /** No two rows have the same order values. */
  ghost predicate KeysApart(rows: seq<Columns>, order: seq<OrderTerm>) {
    forall i, j | 0 <= i < j < |rows| :: KeysOf(rows[i], order) != KeysOf(rows[j], order)
  }

  lemma RowLessIsWeak(lt: Compare, order: seq<OrderTerm>)
    requires StrictOrder(lt)
    ensures StrictWeak(RowLess(lt, order))
  {
    hide StrictOrder, Before;
    forall r, s, t
      ensures !RowLess(lt, order)(r, r)
      ensures RowLess(lt, order)(r, s) && RowLess(lt, order)(s, t) ==> RowLess(lt, order)(r, t)
      ensures !RowLess(lt, order)(r, s) && !RowLess(lt, order)(s, t) ==> !RowLess(lt, order)(r, t)
    {
      WeakAt(lt, order, KeysOf(r, order), KeysOf(s, order), KeysOf(t, order));
    }
  }

  lemma WeakAt(lt: Compare, order: seq<OrderTerm>, x: seq<Value>, y: seq<Value>, z: seq<Value>)
    requires StrictOrder(lt) && |x| == |y| == |z| == |order|
    ensures !Before(lt, order, x, x)
    ensures Before(lt, order, x, y) && Before(lt, order, y, z) ==> Before(lt, order, x, z)
    ensures !Before(lt, order, x, y) && !Before(lt, order, y, z) ==> !Before(lt, order, x, z)
  {
    hide Before, StrictOrder;
    BeforeIrreflexive(lt, order, x);
    BeforeTotal(lt, order, x, y);
    BeforeTotal(lt, order, y, z);
    if Before(lt, order, x, y) && Before(lt, order, y, z) { BeforeTransitive(lt, order, x, y, z); }
    if Before(lt, order, y, x) && Before(lt, order, x, z) { BeforeTransitive(lt, order, y, x, z); }
    if Before(lt, order, z, y) && Before(lt, order, y, x) { BeforeTransitive(lt, order, z, y, x); }
    if Before(lt, order, x, z) && Before(lt, order, z, x) { BeforeTransitive(lt, order, x, z, x); }
    if Before(lt, order, x, z) && Before(lt, order, z, y) { BeforeTransitive(lt, order, x, z, y); }
  }

  lemma {:induction false} FilteredHas(lt: Compare, where: Option<Where>, params: seq<Value>, rows: seq<Columns>,
                                       order: seq<OrderTerm>)
    ensures forall r :: r in Filtered(lt, where, params, rows) <==> r in rows && Kept(lt, where, params, r)
    ensures KeysApart(rows, order) ==> KeysApart(Filtered(lt, where, params, rows), order)
  {
    hide Kept, KeysOf, KeysApart;
    if rows != [] {
      var init, last := rows[..|rows| - 1], rows[|rows| - 1];
      FilteredHas(lt, where, params, init, order);
      assert rows == init + [last];
      if KeysApart(rows, order) { LastApart(init, last, order, Filtered(lt, where, params, init)); }
    }
  }

  lemma LastApart(init: seq<Columns>, last: Columns, order: seq<OrderTerm>, some: seq<Columns>)
    requires KeysApart(init + [last], order) && forall r | r in some :: r in init
    ensures KeysApart(init, order) && (KeysApart(some, order) ==> KeysApart(some + [last], order))
  {
    hide KeysOf;
    forall r | r in init
      ensures KeysOf(r, order) != KeysOf(last, order)
    {
      var i :| 0 <= i < |init| && init[i] == r;
      assert (init + [last])[i] == r && (init + [last])[|init|] == last;
    }
    forall i, j | 0 <= i < j < |init|
      ensures KeysOf(init[i], order) != KeysOf(init[j], order)
    {
      assert (init + [last])[i] == init[i] && (init + [last])[j] == init[j];
    }
  }

  /** SELECT * FROM (...) WHERE ... ORDER BY ... LIMIT: all that matters is that the answer is a
      sorted arrangement of the rows that pass, cut off at the limit. */
  method RunQuery(lt: Compare, base: seq<Columns>, where: Option<Where>, params: seq<Value>,
                  order: seq<OrderTerm>, limit: Option<nat>)
    returns (rows: seq<Columns>, ghost full: seq<Columns>)
    requires StrictOrder(lt)
    ensures multiset(full) == multiset(Filtered(lt, where, params, base)) && Ascending(full, RowLess(lt, order))
    ensures rows == if limit.Some? && limit.value < |full| then full[..limit.value] else full
  {
    RowLessIsWeak(lt, order);
    var sorted := Sort(Filtered(lt, where, params, base), RowLess(lt, order));
    full := sorted;
    rows := if limit.Some? && limit.value < |sorted| then sorted[..limit.value] else sorted;
  }

  // ----- one row for each root

  predicate HasColumn(rows: seq<Columns>, column: string) { forall r | r in rows :: column in r }

  /** The first row for each value of the column. */
  function DistinctRows(rows: seq<Columns>, column: string): seq<Columns>
    requires HasColumn(rows, column)
  {
    if rows == [] then []
    else
      var init, last := rows[..|rows| - 1], rows[|rows| - 1];
      if exists r | r in init :: r[column] == last[column] then DistinctRows(init, column)
      else DistinctRows(init, column) + [last]
  }

  method DistinctRootRows(rows: seq<Columns>, column: string) returns (r: Result<seq<Columns>, PageError>)
    ensures r == if HasColumn(rows, column) then Ok(DistinctRows(rows, column)) else Err(MissingRootKey)
  {
    var seen: set<Value>, unique := {}, [];
    for i := 0 to |rows|
      invariant HasColumn(rows[..i], column)
      invariant forall v :: v in seen <==> exists x :: x in rows[..i] && column in x && x[column] == v
      invariant unique == DistinctRows(rows[..i], column)
    {
      var row := rows[i];
      assert rows[..i + 1] == rows[..i] + [row];
      assert rows[..i + 1][..i] == rows[..i];
      if column !in row {
        return Err(MissingRootKey);
      }
      if row[column] !in seen {
        seen := seen + {row[column]};
        unique := unique + [row];
      }
    }
    assert rows[..|rows|] == rows;
    return Ok(unique);
  }

  // ----- the keys of a result

  /** Keys in strictly rising order. */
  ghost predicate Rising(lt: Compare, order: seq<OrderTerm>, ks: seq<seq<Value>>) {
    && (forall i | 0 <= i < |ks| :: |ks[i]| == |order|)
    && (forall i, j | 0 <= i < j < |ks| :: Before(lt, order, ks[i], ks[j]))
  }

  /** Two rising lists of the same keys are the same list. */
  lemma {:induction false} RisingOnce(lt: Compare, order: seq<OrderTerm>, a: seq<seq<Value>>, b: seq<seq<Value>>)
    requires StrictOrder(lt) && Rising(lt, order, a) && Rising(lt, order, b)
    requires forall k :: k in a <==> k in b
    ensures a == b
  {
    hide StrictOrder;
    EmptyOrNot(a);
    EmptyOrNot(b);
    if a != [] {
      LastIsLargest(lt, order, a, b);
      var a', b' := a[..|a| - 1], b[..|b| - 1];
      assert Rising(lt, order, a') && Rising(lt, order, b');
      hide Rising;
      forall k
        ensures k in a' <==> k in b'
      {
        InitHas(lt, order, a, k);
        InitHas(lt, order, b, k);
      }
      RisingOnce(lt, order, a', b');
      assert a == a' + [a[|a| - 1]] && b == b' + [b[|b| - 1]];
    }
  }

  lemma InitHas(lt: Compare, order: seq<OrderTerm>, a: seq<seq<Value>>, k: seq<Value>)
    requires StrictOrder(lt) && Rising(lt, order, a) && a != []
    ensures k in a[..|a| - 1] <==> k in a && k != a[|a| - 1]
  {
    if k in a[..|a| - 1] {
      var i :| 0 <= i < |a| - 1 && a[i] == k;
      BeforeIrreflexive(lt, order, k);
    }
  }

  lemma LastIsLargest(lt: Compare, order: seq<OrderTerm>, a: seq<seq<Value>>, b: seq<seq<Value>>)
    requires StrictOrder(lt) && Rising(lt, order, a) && Rising(lt, order, b) && a != [] && b != []
    requires forall k :: k in a <==> k in b
    ensures a[|a| - 1] == b[|b| - 1]
  {
    var x, y := a[|a| - 1], b[|b| - 1];
    assert x in b && y in a;
    var i :| 0 <= i < |b| && b[i] == x;
    var j :| 0 <= j < |a| && a[j] == y;
    if x != y {
      assert Before(lt, order, x, y) && Before(lt, order, y, x);
      BeforeTransitive(lt, order, x, y, x);
      BeforeIrreflexive(lt, order, x);
    }
  }

  /** The order columns are not null, and tell apart the rows, or the roots where rows are taken once for each root. */
  ghost predicate Ordered(base: seq<Columns>, order: seq<OrderTerm>, dedupe: Option<string>) {
    && (forall r | r in base :: HasKeys(r, order))
    && match dedupe
       case None => KeysApart(base, order)
       case Some(c) =>
         && HasColumn(base, c)
         && forall r, s | r in base && s in base :: r[c] == s[c] <==> KeysOf(r, order) == KeysOf(s, order)
  }

  /** The keys of the full result, in order: each once. */
  ghost predicate AllKeys(lt: Compare, base: seq<Columns>, order: seq<OrderTerm>, all: seq<seq<Value>>) {
    Rising(lt, order, all) && forall k :: k in all <==> exists r :: r in base && KeysOf(r, order) == k
  }

  function OneEach(rows: seq<Columns>, dedupe: Option<string>): seq<Columns>
    requires dedupe.Some? ==> HasColumn(rows, dedupe.value)
  {
    if dedupe.Some? then DistinctRows(rows, dedupe.value) else rows
  }

  ghost predicate SeenIn(rows: seq<Columns>, column: string, v: Value)
    requires HasColumn(rows, column)
  {
    exists r :: r in rows && r[column] == v
  }

  lemma DistinctSnoc(init: seq<Columns>, last: Columns, column: string)
    requires HasColumn(init + [last], column)
    ensures HasColumn(init, column) && column in last
    ensures DistinctRows(init + [last], column)
         == DistinctRows(init, column) + if SeenIn(init, column, last[column]) then [] else [last]
  {
    var rows := init + [last];
    assert rows[..|rows| - 1] == init && rows[|rows| - 1] == last;
    assert forall r | r in init :: r in rows;
    assert last in rows;
  }

  /** Rows taken once stand for all, and are among them. */
  lemma {:induction false} DistinctCovers(rows: seq<Columns>, column: string)
    requires HasColumn(rows, column)
    ensures forall r | r in DistinctRows(rows, column) :: r in rows
    ensures forall r | r in rows :: SomeHas(DistinctRows(rows, column), column, r[column])
    decreases |rows|
  {
    if rows != [] {
      var init, last := rows[..|rows| - 1], rows[|rows| - 1];
      assert rows == init + [last];
      DistinctSnoc(init, last, column);
      DistinctCovers(init, column);
      hide DistinctRows;
      CoversOneMore(init, last, column, DistinctRows(init, column), DistinctRows(rows, column));
    }
  }

  ghost predicate SomeHas(rows: seq<Columns>, column: string, v: Value) {
    exists r :: r in rows && column in r && r[column] == v
  }

  lemma CoversOneMore(init: seq<Columns>, last: Columns, column: string, prev: seq<Columns>, next: seq<Columns>)
    requires HasColumn(init + [last], column) && HasColumn(init, column) && column in last
    requires next == prev + if SeenIn(init, column, last[column]) then [] else [last]
    requires forall r | r in prev :: r in init
    requires forall r | r in init :: SomeHas(prev, column, r[column])
    ensures forall r | r in next :: r in init + [last]
    ensures forall r | r in init + [last] :: SomeHas(next, column, r[column])
  {
    assert forall r | r in prev :: r in next;
    assert !SeenIn(init, column, last[column]) ==> last in next;
  }

  lemma {:induction false} DistinctRise(lt: Compare, order: seq<OrderTerm>, rows: seq<Columns>, column: string)
    requires StrictOrder(lt) && Ascending(rows, RowLess(lt, order)) && HasColumn(rows, column)
    requires forall r, s | r in rows && s in rows :: r[column] == s[column] <==> KeysOf(r, order) == KeysOf(s, order)
    ensures Rising(lt, order, KeyList(DistinctRows(rows, column), order))
    decreases |rows|
  {
    hide Before, KeysOf, StrictOrder, Rising;
    if rows != [] {
      var init, last := rows[..|rows| - 1], rows[|rows| - 1];
      assert rows == init + [last];
      DistinctSnoc(init, last, column);
      DistinctRise(lt, order, init, column);
      if !SeenIn(init, column, last[column]) {
        DistinctCovers(init, column);
        LaterRowIsLater(lt, order, init, last);
        OneMoreRises(lt, order, DistinctRows(init, column), last);
      }
    } else {
      NoneRise(lt, order);
    }
  }

  lemma NoneRise(lt: Compare, order: seq<OrderTerm>)
    ensures Rising(lt, order, [])
  {}

  lemma LaterRowIsLater(lt: Compare, order: seq<OrderTerm>, init: seq<Columns>, last: Columns)
    requires StrictOrder(lt) && Ascending(init + [last], RowLess(lt, order))
    ensures forall r | r in init && KeysOf(r, order) != KeysOf(last, order) ::
              Before(lt, order, KeysOf(r, order), KeysOf(last, order))
  {
    hide Before, KeysOf, StrictOrder;
    forall r | r in init && KeysOf(r, order) != KeysOf(last, order)
      ensures Before(lt, order, KeysOf(r, order), KeysOf(last, order))
    {
      var j :| 0 <= j < |init| && init[j] == r;
      assert !RowLess(lt, order)((init + [last])[|init|], (init + [last])[j]);
      BeforeTotal(lt, order, KeysOf(r, order), KeysOf(last, order));
    }
  }

  lemma OneMoreRises(lt: Compare, order: seq<OrderTerm>, prev: seq<Columns>, last: Columns)
    requires Rising(lt, order, KeyList(prev, order))
    requires forall r | r in prev :: Before(lt, order, KeysOf(r, order), KeysOf(last, order))
    ensures Rising(lt, order, KeyList(prev + [last], order))
  {
    hide Before, KeysOf;
    var ks := KeyList(prev + [last], order);
    forall i, j | 0 <= i < j < |ks|
      ensures Before(lt, order, ks[i], ks[j])
    {
      if j < |prev| {
        assert ks[i] == KeyList(prev, order)[i] && ks[j] == KeyList(prev, order)[j];
      } else {
        assert prev[i] in prev;
      }
    }
  }

  lemma ApartRise(lt: Compare, order: seq<OrderTerm>, rows: seq<Columns>)
    requires StrictOrder(lt) && Ascending(rows, RowLess(lt, order)) && KeysApart(rows, order)
    ensures Rising(lt, order, KeyList(rows, order))
  {
    hide Before, KeysOf, StrictOrder;
    forall i, j | 0 <= i < j < |rows|
      ensures Before(lt, order, KeysOf(rows[i], order), KeysOf(rows[j], order))
    {
      assert !RowLess(lt, order)(rows[j], rows[i]);
      BeforeTotal(lt, order, KeysOf(rows[i], order), KeysOf(rows[j], order));
    }
  }

  lemma PermutationKeepsKeys(xs: seq<Columns>, ys: seq<Columns>, order: seq<OrderTerm>)
    requires multiset(xs) == multiset(ys) && KeysApart(xs, order)
    ensures KeysApart(ys, order)
  {
    hide KeysOf;
    var apart := (r: Columns, s: Columns) => KeysOf(r, order) != KeysOf(s, order);
    assert PairwiseApart(xs, apart);
    PermutationKeepsApart(xs, ys, apart);
    assert forall i, j | 0 <= i < j < |ys| :: apart(ys[i], ys[j]);
  }

  /** The answer to a query, one row for each root where asked, has the keys that pass, rising in the
      direction of the query. `eff` is the order of the query or its opposite. */
  lemma AnswerRises(lt: Compare, base: seq<Columns>, order: seq<OrderTerm>, eff: seq<OrderTerm>, dedupe: Option<string>,
                    where: Option<Where>, params: seq<Value>, full: seq<Columns>)
    requires StrictOrder(lt) && Ordered(base, order, dedupe) && (eff == order || eff == Flip(order))
    requires multiset(full) == multiset(Filtered(lt, where, params, base)) && Ascending(full, RowLess(lt, eff))
    ensures forall r :: r in full <==> r in base && Kept(lt, where, params, r)
    ensures dedupe.Some? ==> HasColumn(full, dedupe.value)
    ensures Rising(lt, eff, KeyList(OneEach(full, dedupe), eff))
    ensures forall r | r in OneEach(full, dedupe) :: r in full
    ensures forall r | r in full :: KeysOf(r, order) in KeyList(OneEach(full, dedupe), order)
  {
    hide Kept, KeysOf, Before, Filtered, Rising, StrictOrder, Ascending;
    SameMembers(full, Filtered(lt, where, params, base));
    FilteredHas(lt, where, params, base, order);
    forall r { FlipKeepsKeys(r, order); }
    match dedupe
    case None =>
      PermutationKeepsKeys(Filtered(lt, where, params, base), full, order);
      ApartRise(lt, eff, full);
      KeysListed(full, order);
    case Some(c) =>
      DistinctRise(lt, eff, full, c);
      DistinctCovers(full, c);
      var one := DistinctRows(full, c);
      KeysListed(one, order);
      forall r | r in full
        ensures KeysOf(r, order) in KeyList(one, order)
      {
        var s :| s in one && c in s && s[c] == r[c];
        assert KeysOf(s, order) == KeysOf(r, order);
      }
  }

  lemma KeysListed(rows: seq<Columns>, order: seq<OrderTerm>)
    ensures forall r | r in rows :: KeysOf(r, order) in KeyList(rows, order)
  {
    hide KeysOf;
    forall r | r in rows
      ensures KeysOf(r, order) in KeyList(rows, order)
    {
      var i :| 0 <= i < |rows| && rows[i] == r;
      assert KeyList(rows, order)[i] == KeysOf(r, order);
    }
  }

  /** The keys after `k` are those from position `from` on: all of them where there is no `k`. */
  ghost predicate BeginsAfter(lt: Compare, order: seq<OrderTerm>, all: seq<seq<Value>>, from: nat,
                              k: Option<seq<Value>>)
    requires from <= |all| && Rising(lt, order, all)
  {
    match k
    case None => from == 0
    case Some(key) =>
      && |key| == |order|
      && (forall i | 0 <= i < from :: !Before(lt, order, key, all[i]))
      && (forall i | from <= i < |all| :: Before(lt, order, key, all[i]))
  }

  /** The keys before `k` are those up to position `to`: all of them where there is no `k`. */
  ghost predicate EndsBefore(lt: Compare, order: seq<OrderTerm>, all: seq<seq<Value>>, to: nat, k: Option<seq<Value>>)
    requires to <= |all| && Rising(lt, order, all)
  {
    match k
    case None => to == |all|
    case Some(key) =>
      && |key| == |order|
      && (forall i | 0 <= i < to :: Before(lt, order, all[i], key))
      && (forall i | to <= i < |all| :: !Before(lt, order, all[i], key))
  }

  lemma TailHas(lt: Compare, order: seq<OrderTerm>, all: seq<seq<Value>>, from: nat, k: Option<seq<Value>>,
                x: seq<Value>)
    requires Rising(lt, order, all) && from <= |all| && BeginsAfter(lt, order, all, from, k)
    ensures x in all[from..] <==> x in all && |x| == |order| && (k.None? || Before(lt, order, k.value, x))
  {
    hide Before;
    if x in all {
      var i :| 0 <= i < |all| && all[i] == x;
      if i >= from { assert all[from..][i - from] == x; }
    }
  }

  lemma HeadHas(lt: Compare, order: seq<OrderTerm>, all: seq<seq<Value>>, to: nat, k: Option<seq<Value>>, x: seq<Value>)
    requires Rising(lt, order, all) && to <= |all| && EndsBefore(lt, order, all, to, k)
    ensures x in all[..to] <==> x in all && |x| == |order| && (k.None? || Before(lt, order, x, k.value))
  {
    hide Before;
    if x in all {
      var i :| 0 <= i < |all| && all[i] == x;
      if i < to { assert all[..to][i] == x; }
    }
  }

  /** Any key, whether a row has it or not, has such a position. */
  lemma {:induction false} KeyBegins(lt: Compare, order: seq<OrderTerm>, all: seq<seq<Value>>, key: seq<Value>)
    returns (from: nat)
    requires StrictOrder(lt) && Rising(lt, order, all) && |key| == |order|
    ensures from <= |all| && BeginsAfter(lt, order, all, from, Some(key))
  {
    hide Before, StrictOrder;
    if all == [] {
      from := 0;
    } else {
      var n := |all| - 1;
      if Before(lt, order, key, all[n]) {
        from := KeyBegins(lt, order, all[..n], key);
        assert forall i | from <= i < n :: all[..n][i] == all[i];
        assert forall i | 0 <= i < from :: all[..n][i] == all[i];
      } else {
        from := |all|;
        forall i | 0 <= i < n
          ensures !Before(lt, order, key, all[i])
        {
          if Before(lt, order, key, all[i]) { BeforeTransitive(lt, order, key, all[i], all[n]); }
        }
      }
    }
  }

  lemma {:induction false} KeyEnds(lt: Compare, order: seq<OrderTerm>, all: seq<seq<Value>>, key: seq<Value>)
    returns (to: nat)
    requires StrictOrder(lt) && Rising(lt, order, all) && |key| == |order|
    ensures to <= |all| && EndsBefore(lt, order, all, to, Some(key))
  {
    hide Before, StrictOrder;
    if all == [] {
      to := 0;
    } else {
      var n := |all| - 1;
      if Before(lt, order, all[n], key) {
        to := |all|;
        forall i | 0 <= i < n
          ensures Before(lt, order, all[i], key)
        {
          BeforeTransitive(lt, order, all[i], all[n], key);
        }
      } else {
        to := KeyEnds(lt, order, all[..n], key);
        assert forall i | to <= i < n :: all[..n][i] == all[i];
        assert forall i | 0 <= i < to :: all[..n][i] == all[i];
      }
    }
  }

  /** The key of a row that is still there begins behind that row. */
  lemma BeginsBehind(lt: Compare, order: seq<OrderTerm>, all: seq<seq<Value>>, from: nat)
    requires StrictOrder(lt) && Rising(lt, order, all) && 0 < from <= |all|
    ensures BeginsAfter(lt, order, all, from, Some(all[from - 1]))
  {
    hide Before, StrictOrder;
    forall i | 0 <= i < from
      ensures !Before(lt, order, all[from - 1], all[i])
    {
      Unordered(lt, order, all[i], all[from - 1]);
    }
  }

  lemma Unordered(lt: Compare, order: seq<OrderTerm>, x: seq<Value>, y: seq<Value>)
    requires StrictOrder(lt) && |x| == |y| == |order| && (x == y || Before(lt, order, x, y))
    ensures !Before(lt, order, y, x)
  {
    BeforeIrreflexive(lt, order, x);
    if x != y && Before(lt, order, y, x) { BeforeTransitive(lt, order, x, y, x); }
  }

  function Reverse<T>(xs: seq<T>): (ys: seq<T>)
    ensures |ys| == |xs| && forall i | 0 <= i < |xs| :: ys[i] == xs[|xs| - 1 - i]
  {
    seq(|xs|, i requires 0 <= i < |xs| => xs[|xs| - 1 - i])
  }

  lemma ReverseHas<T>(xs: seq<T>, x: T)
    ensures x in Reverse(xs) <==> x in xs
  {
    if x in xs {
      var i :| 0 <= i < |xs| && xs[i] == x;
      assert Reverse(xs)[|xs| - 1 - i] == x;
    }
  }

  lemma ReverseRises(lt: Compare, order: seq<OrderTerm>, ks: seq<seq<Value>>)
    requires Rising(lt, order, ks)
    ensures Rising(lt, Flip(order), Reverse(ks))
  {
    var rs := Reverse(ks);
    forall i, j | 0 <= i < j < |rs|
      ensures Before(lt, Flip(order), rs[i], rs[j])
    {
      FlipReverses(lt, order, rs[i], rs[j]);
    }
  }

  /** The rows pass if they come after position `from`. */
  ghost predicate KeepsAfter(lt: Compare, base: seq<Columns>, order: seq<OrderTerm>, k: Option<seq<Value>>,
                             where: Option<Where>, params: seq<Value>)
  {
    && (k.Some? ==> |k.value| == |order|)
    && forall r | r in base :: Kept(lt, where, params, r) <==> k.None? || Before(lt, order, k.value, KeysOf(r, order))
  }

  ghost predicate KeepsBefore(lt: Compare, base: seq<Columns>, order: seq<OrderTerm>, k: Option<seq<Value>>,
                              where: Option<Where>, params: seq<Value>)
  {
    && (k.Some? ==> |k.value| == |order|)
    && forall r | r in base :: Kept(lt, where, params, r) <==> k.None? || Before(lt, order, KeysOf(r, order), k.value)
  }

  lemma ForwardKeys(lt: Compare, base: seq<Columns>, order: seq<OrderTerm>, dedupe: Option<string>,
                    where: Option<Where>, params: seq<Value>, full: seq<Columns>, all: seq<seq<Value>>, from: nat,
                    k: Option<seq<Value>>)
    requires StrictOrder(lt) && Ordered(base, order, dedupe) && AllKeys(lt, base, order, all) && from <= |all|
    requires BeginsAfter(lt, order, all, from, k) && KeepsAfter(lt, base, order, k, where, params)
    requires multiset(full) == multiset(Filtered(lt, where, params, base)) && Ascending(full, RowLess(lt, order))
    ensures dedupe.Some? ==> HasColumn(full, dedupe.value)
    ensures KeyList(OneEach(full, dedupe), order) == all[from..]
    ensures forall r | r in OneEach(full, dedupe) :: r in base
  {
    hide Kept, KeysOf, Before, Filtered, StrictOrder, Ascending;
    AnswerRises(lt, base, order, order, dedupe, where, params, full);
    var ks := KeyList(OneEach(full, dedupe), order);
    forall x
      ensures x in ks <==> x in all[from..]
    {
      KeyListHas(OneEach(full, dedupe), order, x);
      TailHas(lt, order, all, from, k, x);
    }
    RisingOnce(lt, order, ks, all[from..]);
  }

  lemma KeyListHas(rows: seq<Columns>, order: seq<OrderTerm>, k: seq<Value>)
    ensures k in KeyList(rows, order) <==> exists r :: r in rows && KeysOf(r, order) == k
  {
    if r :| r in rows && KeysOf(r, order) == k {
      var i :| 0 <= i < |rows| && rows[i] == r;
      assert KeyList(rows, order)[i] == k;
    }
  }

  lemma BackwardKeys(lt: Compare, base: seq<Columns>, order: seq<OrderTerm>, dedupe: Option<string>,
                     where: Option<Where>, params: seq<Value>, full: seq<Columns>, all: seq<seq<Value>>, to: nat,
                     k: Option<seq<Value>>)
    requires StrictOrder(lt) && Ordered(base, order, dedupe) && AllKeys(lt, base, order, all) && to <= |all|
    requires EndsBefore(lt, order, all, to, k) && KeepsBefore(lt, base, order, k, where, params)
    requires multiset(full) == multiset(Filtered(lt, where, params, base)) && Ascending(full, RowLess(lt, Flip(order)))
    ensures dedupe.Some? ==> HasColumn(full, dedupe.value)
    ensures KeyList(OneEach(full, dedupe), order) == Reverse(all[..to])
    ensures forall r | r in OneEach(full, dedupe) :: r in base
  {
    hide Kept, KeysOf, Before, Filtered, StrictOrder, Ascending;
    AnswerRises(lt, base, order, Flip(order), dedupe, where, params, full);
    var one := OneEach(full, dedupe);
    var ks := KeyList(one, order);
    assert KeyList(one, Flip(order)) == ks by {
      forall r { FlipKeepsKeys(r, order); }
    }
    forall x
      ensures x in ks <==> x in Reverse(all[..to])
    {
      KeyListHas(one, order, x);
      ReverseHas(all[..to], x);
      HeadHas(lt, order, all, to, k, x);
    }
    assert Rising(lt, order, all[..to]);
    ReverseRises(lt, order, all[..to]);
    RisingOnce(lt, Flip(order), ks, Reverse(all[..to]));
  }

  // ----- cursors of rows

  /** The text of the cursor for the order values `k`. */
  ghost function CursorOf(k: seq<Value>, order: seq<OrderTerm>, d: DoubleText): string {
    if NoneNull(k) && IsBytes(PlainText(k, order, d)) then Encoded(PlainText(k, order, d)) else []
  }

  /** All that the rows have in the order columns fits in a cursor. */
  ghost predicate Carried(base: seq<Columns>, order: seq<OrderTerm>, d: DoubleText) {
    && NoNewline(Signature(order))
    && forall r | r in base && HasKeys(r, order) ::
         && (forall i | 0 <= i < |order| :: Portable(KeysOf(r, order)[i], d))
         && |PlainText(KeysOf(r, order), order, d)| < U64
  }

  ghost predicate StringsInBytes(base: seq<Columns>, order: seq<OrderTerm>, d: DoubleText) {
    forall r | r in base :: InBytes(KeysOf(r, order), order, d)
  }

  /** The key can be written into a cursor. */
  ghost predicate CanCarry(k: seq<Value>, order: seq<OrderTerm>, d: DoubleText) {
    && |k| == |order| && NoneNull(k) && InBytes(k, order, d) && (forall i | 0 <= i < |k| :: Portable(k[i], d))
    && |PlainText(k, order, d)| < U64
  }

  lemma RowKeyCanBeCarried(base: seq<Columns>, order: seq<OrderTerm>, d: DoubleText, k: seq<Value>)
    requires Carried(base, order, d) && StringsInBytes(base, order, d)
    requires exists r :: r in base && HasKeys(r, order) && KeysOf(r, order) == k
    ensures CanCarry(k, order, d)
  {
    hide Portable, PlainText, NoNewline, Signature, InBytes;
    var r :| r in base && HasKeys(r, order) && KeysOf(r, order) == k;
  }

  lemma CursorReadsBack(order: seq<OrderTerm>, d: DoubleText, k: seq<Value>)
    requires NoNewline(Signature(order)) && CanCarry(k, order, d)
    ensures AllLetters(CursorOf(k, order, d)) && IsBytes(Decoded(CursorOf(k, order, d)))
    ensures ParsePlain(Decoded(CursorOf(k, order, d)), d) == Ok(DecodedCursor(k, Signature(order)))
  {
    hide Portable, PlainText, NoNewline, Signature, Decoded, ParsePlain, AllLetters, IsBytes, Encoded;
    PlainIsBytes(k, order, d);
    CursorRoundTrip(k, order, d);
  }

  method CursorValuesFromRow(row: Columns, order: seq<OrderTerm>) returns (r: Result<seq<Value>, PageError>)
    ensures HasKeys(row, order) ==> r == Ok(KeysOf(row, order))
    ensures !HasKeys(row, order) ==> r.Err?
  {
    var values := [];
    for i := 0 to |order|
      invariant forall j | 0 <= j < i :: order[j].column in row && !row[order[j].column].Null?
      invariant values == KeysOf(row, order)[..i]
    {
      if order[i].column !in row {
        return Err(MissingOrderColumn);
      }
      if row[order[i].column].Null? {
        return Err(NullInOrder);
      }
      values := values + [row[order[i].column]];
    }
    assert KeysOf(row, order)[..|order|] == KeysOf(row, order);
    return Ok(values);
  }

  method RowCursor(row: Columns, order: seq<OrderTerm>, d: DoubleText) returns (r: Result<string, PageError>)
    requires InBytes(KeysOf(row, order), order, d)
    ensures HasKeys(row, order) ==> r == Ok(CursorOf(KeysOf(row, order), order, d))
    ensures !HasKeys(row, order) ==> r.Err?
  {
    hide InBytes, PlainText, Encoded, IsBytes;
    var values := CursorValuesFromRow(row, order);
    if values.Err? {
      return Err(values.error);
    }
    var text := EncodeCursor(values.value, order, d);
    return Ok(text.value);
  }

  // ----- one page

  /** The options make no sense as `e` says, and none of the earlier tests finds a fault. */
  ghost predicate AtFault(o: PageOptions, e: PageError) {
    match e
    case FirstAndLast => o.first.Some? && o.last.Some?
    case AfterAndBefore => !(o.first.Some? && o.last.Some?) && o.after.Some? && o.before.Some?
    case NeitherFirstNorLast => o.first.None? && o.last.None? && !(o.after.Some? && o.before.Some?)
    case EmptyPage =>
      && !(o.after.Some? && o.before.Some?)
      && ((o.first == Some(0) && o.last.None?) || (o.last == Some(0) && o.first.None?))
    case _ => false
  }

  method ValidateOptions(o: PageOptions) returns (r: Result<Size, PageError>)
    ensures r.Ok? <==> !(o.first.Some? && o.last.Some?) && !(o.after.Some? && o.before.Some?)
                       && (o.first.Some? || o.last.Some?)
                       && (o.first.Some? ==> o.first.value > 0) && (o.last.Some? ==> o.last.value > 0)
    ensures r.Ok? ==> r.value == if o.first.Some? then o.first.value else o.last.value
    ensures forall e :: r == Err(e) <==> AtFault(o, e)
  {
    if o.first.Some? && o.last.Some? { return Err(FirstAndLast); }
    if o.after.Some? && o.before.Some? { return Err(AfterAndBefore); }
    if o.first.None? && o.last.None? { return Err(NeitherFirstNorLast); }
    var limit := if o.first.Some? then o.first.value else o.last.value;
    if limit < 1 { return Err(EmptyPage); }
    return Ok(limit);
  }

  /** A cursor that is no text of the alphabet, says nothing, or was made for another order or number of values. */
  ghost predicate Rejected(c: string, order: seq<OrderTerm>, d: DoubleText, e: PageError) {
    if !AllLetters(c) || !IsBytes(Decoded(c)) then e == BadCursor(InvalidFormat)
    else
      match ParsePlain(Decoded(c), d)
      case Err(error) => e == BadCursor(error)
      case Ok(k) =>
        if k.signature != Signature(order) then e == SignatureMismatch
        else |k.values| != |order| && e == BadCursor(InvalidPayload)
  }

  /** A cursor that was made for an order of another signature is turned down. */
  lemma ForeignIsRejected(order: seq<OrderTerm>, other: seq<OrderTerm>, k: seq<Value>, d: DoubleText)
    requires CanCarry(k, other, d) && NoNewline(Signature(other)) && Signature(other) != Signature(order)
    ensures Rejected(CursorOf(k, other, d), order, d, SignatureMismatch)
  {
    hide CanCarry, NoNewline, Signature, CursorOf, Decoded, ParsePlain, AllLetters, IsBytes;
    CursorReadsBack(other, d, k);
  }

  /** A cursor that was made for the order is not. */
  lemma OwnIsAccepted(order: seq<OrderTerm>, k: seq<Value>, d: DoubleText, e: PageError)
    requires CanCarry(k, order, d) && NoNewline(Signature(order))
    ensures !Rejected(CursorOf(k, order, d), order, d, e)
  {
    hide NoNewline, Signature, CursorOf, Decoded, ParsePlain, AllLetters, IsBytes;
    CursorReadsBack(order, d, k);
  }

  /** Orders whose names hold no separator share cursors only if they are the same. */
  lemma OtherOrderIsRejected(order: seq<OrderTerm>, other: seq<OrderTerm>, k: seq<Value>, d: DoubleText)
    requires CanCarry(k, other, d) && NoNewline(Signature(other)) && PlainNames(order) && PlainNames(other)
    ensures Rejected(CursorOf(k, other, d), order, d, SignatureMismatch) <==> order != other
  {
    hide CanCarry, NoNewline, Signature, CursorOf, PlainNames, Rejected;
    if order != other {
      if Signature(order) == Signature(other) { SignatureTells(order, other); }
      ForeignIsRejected(order, other, k, d);
    } else {
      OwnIsAccepted(order, k, d, SignatureMismatch);
    }
  }

  /** The WHERE clause for the cursor in the options, and the parameters with its values. */
  method CursorClause(order: seq<OrderTerm>, options: PageOptions, params: seq<Value>, d: DoubleText)
    returns (r: Result<(Option<Where>, seq<Value>), PageError>)
    ensures options.after.None? && options.before.None? ==> r == Ok((None, params))
    ensures var c := if options.after.Some? then options.after else options.before;
            c.Some? && AllLetters(c.value) && IsBytes(Decoded(c.value)) && ParsePlain(Decoded(c.value), d).Ok? ==>
              var k := ParsePlain(Decoded(c.value), d).value;
              k.signature == Signature(order) && |k.values| == |order| ==>
                r == Ok((Some(CursorWhere(order, options.last.None?, |params|)),
                         params + CursorParams(k.values, |k.values|)))
    ensures options.after.Some? || options.before.Some? ==> (r.Ok? ==> r.value.0.Some?)
    ensures var c := if options.after.Some? then options.after else options.before;
            c.Some? ==> forall e :: r == Err(e) <==> Rejected(c.value, order, d, e)
  {
    hide Signature, Decoded, ParsePlain, AllLetters, IsBytes, CursorWhere, CursorParams;
    var cursor := if options.after.Some? then options.after else options.before;
    if cursor.None? {
      return Ok((None, params));
    }
    var decoded := DecodeCursor(cursor.value, d);
    if decoded.Err? {
      return Err(BadCursor(decoded.error));
    }
    var signature := OrderSignature(order);
    if decoded.value.signature != signature {
      return Err(SignatureMismatch);
    }
    var clause := AppendCursorPredicate(params, order, decoded.value.values, options.last.None?);
    if clause.Err? {
      return Err(BadCursor(clause.error));
    }
    return Ok((Some(clause.value.0), clause.value.1));
  }

  /** Everything that a page of `base` rests on. */
  ghost predicate Pageable(lt: Compare, base: seq<Columns>, order: seq<OrderTerm>, dedupe: Option<string>,
                           d: DoubleText, all: seq<seq<Value>>)
  {
    && StrictOrder(lt) && order != [] && Ordered(base, order, dedupe)
    && AllKeys(lt, base, order, all) && Carried(base, order, d)
  }

  /** The options ask for the first rows after the key `k`, from the beginning where there is none. */
  ghost predicate Forward(o: PageOptions, order: seq<OrderTerm>, d: DoubleText, k: Option<seq<Value>>) {
    && o.first.Some? && o.first.value > 0 && o.last.None? && o.before.None?
    && (k.Some? ==> CanCarry(k.value, order, d))
    && o.after == if k.None? then None else Some(CursorOf(k.value, order, d))
  }

  /** The options ask for the last rows before the key `k`, up to the end where there is none. */
  ghost predicate Backward(o: PageOptions, order: seq<OrderTerm>, d: DoubleText, k: Option<seq<Value>>) {
    && o.last.Some? && o.last.value > 0 && o.first.None? && o.after.None?
    && (k.Some? ==> CanCarry(k.value, order, d))
    && o.before == if k.None? then None else Some(CursorOf(k.value, order, d))
  }

  /** The page holds rows of `base` with the keys from position `i` to `j`, in forward order, and says so. */
  ghost predicate Shows(page: Page, base: seq<Columns>, order: seq<OrderTerm>, d: DoubleText,
                        all: seq<seq<Value>>, i: nat, j: nat)
    requires i <= j <= |all|
  {
    && KeyList(page.items, order) == all[i..j]
    && (forall r | r in page.items :: r in base)
    && page.info.start == (if i == j then None else Some(CursorOf(all[i], order, d)))
    && page.info.end == (if i == j then None else Some(CursorOf(all[j - 1], order, d)))
  }

  /** The first `limit` rows after the key `k`, which begin at position `from`. */
  ghost predicate ShowsNext(page: Page, base: seq<Columns>, order: seq<OrderTerm>, d: DoubleText,
                            all: seq<seq<Value>>, k: Option<seq<Value>>, from: nat, limit: nat)
    requires from <= |all|
  {
    && Shows(page, base, order, d, all, from, Min(from + limit, |all|))
    && (page.info.hasNext <==> from + limit < |all|)
    && (page.info.hasPrevious <==> k.Some? && from < |all|)
  }

  /** The last `limit` rows before the key `k`, which end at position `to`. */
  ghost predicate ShowsLast(page: Page, base: seq<Columns>, order: seq<OrderTerm>, d: DoubleText,
                            all: seq<seq<Value>>, k: Option<seq<Value>>, to: nat, limit: nat)
    requires to <= |all|
  {
    && Shows(page, base, order, d, all, to - Min(limit, to), to)
    && (page.info.hasPrevious <==> limit < to)
    && (page.info.hasNext <==> k.Some? && to > 0)
  }

  /** A page without rows says nothing. */
  function NoRows(): Page { Page([], PageInfo(false, false, None, None)) }

  /** It is the page asked for exactly if there is nothing to show. */
  lemma NoRowsShow(base: seq<Columns>, order: seq<OrderTerm>, d: DoubleText, all: seq<seq<Value>>,
                   k: Option<seq<Value>>, at: nat, limit: nat)
    requires at <= |all| && limit > 0
    ensures ShowsNext(NoRows(), base, order, d, all, k, at, limit) <==> at == |all|
    ensures ShowsLast(NoRows(), base, order, d, all, k, at, limit) <==> at == 0
  {
    assert |all[at..Min(at + limit, |all|)]| == Min(at + limit, |all|) - at;
    assert |all[at - Min(limit, at)..at]| == Min(limit, at);
    assert KeyList([], order) == [];
  }

  lemma NoRowsMake(page: Page, limit: nat, order: seq<OrderTerm>, options: PageOptions, d: DoubleText)
    requires Makes(page, [], limit, order, options, d)
    ensures page == NoRows()
  {}

  function Min(a: nat, b: nat): nat { if a < b then a else b }

  /** The rows that a page is made of, seen as a part of all that there are. */
  ghost predicate CutOf(rows: seq<Columns>, one: seq<Columns>, limit: nat) {
    rows[..Min(limit, |rows|)] == one[..Min(limit, |one|)] && (|rows| > limit <==> |one| > limit)
  }

  /** How many rows are asked for: one more than are shown, in 64 bits. */
  function OneMore(limit: Size): Size { (limit + 1) % U64 }

  /** The query asks for no row at all. */
  predicate WrapsAround(limit: Size, dedupe: Option<string>) { dedupe.None? && limit == U64 - 1 }

  lemma OneMoreIs(limit: Size)
    ensures OneMore(limit) == if limit == U64 - 1 then 0 else limit + 1
  {}

  /** The rows of a query, one for each root where asked. */
  method FetchRows(lt: Compare, base: seq<Columns>, where: Option<Where>, params: seq<Value>,
                   eff: seq<OrderTerm>, limit: Size, dedupe: Option<string>)
    returns (r: Result<seq<Columns>, PageError>, ghost full: seq<Columns>)
    requires StrictOrder(lt)
    ensures multiset(full) == multiset(Filtered(lt, where, params, base)) && Ascending(full, RowLess(lt, eff))
    ensures r.Ok? ==> forall x | x in r.value :: x in base
    ensures dedupe.None? ==> r.Ok?
    ensures dedupe.Some? && HasColumn(full, dedupe.value) ==> r.Ok?
    ensures WrapsAround(limit, dedupe) ==> r == Ok([])
    ensures !WrapsAround(limit, dedupe) && r.Ok? && (dedupe.Some? ==> HasColumn(full, dedupe.value)) ==>
              CutOf(r.value, OneEach(full, dedupe), limit)
  {
    OneMoreIs(limit);
    var rows;
    rows, full := RunQuery(lt, base, where, params, eff, if dedupe.Some? then None else Some(OneMore(limit)));
    SameMembers(full, Filtered(lt, where, params, base));
    FilteredHas(lt, where, params, base, eff);
    if dedupe.None? {
      return Ok(rows), full;
    }
    r := DistinctRootRows(rows, dedupe.value);
    if r.Ok? { DistinctCovers(rows, dedupe.value); }
  }

  /** The page is the first `limit` rows, turned round for the last rows before a cursor, and says what
      is beyond them. */
  ghost predicate Makes(page: Page, rows: seq<Columns>, limit: nat, order: seq<OrderTerm>, options: PageOptions,
                        d: DoubleText) {
    var cut := rows[..Min(limit, |rows|)];
    var items := if options.last.Some? then Reverse(cut) else cut;
    && page.items == items
    && page.info.hasNext == (items != [] && if options.last.Some? then options.before.Some? else |rows| > limit)
    && page.info.hasPrevious == (items != [] && if options.last.Some? then |rows| > limit else options.after.Some?)
    && page.info.start == (if items == [] then None else Some(CursorOf(KeysOf(items[0], order), order, d)))
    && page.info.end == (if items == [] then None else Some(CursorOf(KeysOf(items[|items| - 1], order), order, d)))
  }

  /** The page that the rows make. */
  method MakePage(rows: seq<Columns>, limit: nat, order: seq<OrderTerm>, options: PageOptions, d: DoubleText)
    returns (r: Result<Page, PageError>)
    requires limit > 0 && StringsInBytes(rows, order, d)
    ensures (forall x | x in rows :: HasKeys(x, order)) ==> r.Ok?
    ensures r.Ok? ==> Makes(r.value, rows, limit, order, options, d)
  {
    hide KeysOf, CursorOf, InBytes;
    var hasExtra := |rows| > limit;
    var items := if hasExtra then rows[..limit] else rows;
    assert items == rows[..Min(limit, |rows|)];
    if options.last.Some? { items := Reverse(items); }
    if items == [] {
      return Ok(Page(items, PageInfo(false, false, None, None)));
    }
    assert items[0] in rows && items[|items| - 1] in rows;
    var start := RowCursor(items[0], order, d);
    if start.Err? { return Err(start.error); }
    var end := RowCursor(items[|items| - 1], order, d);
    if end.Err? { return Err(end.error); }
    var backward := options.last.Some?;
    return Ok(Page(items, PageInfo(if backward then options.before.Some? else hasExtra,
                                   if backward then hasExtra else options.after.Some?,
                                   Some(start.value), Some(end.value))));
  }

  /** The clause for a cursor lets through exactly what comes after its key. */
  lemma ForwardClause(lt: Compare, base: seq<Columns>, order: seq<OrderTerm>, dedupe: Option<string>, d: DoubleText,
                      all: seq<seq<Value>>, k: seq<Value>, params: seq<Value>)
    requires Pageable(lt, base, order, dedupe, d, all) && CanCarry(k, order, d)
    ensures AllLetters(CursorOf(k, order, d)) && IsBytes(Decoded(CursorOf(k, order, d)))
    ensures ParsePlain(Decoded(CursorOf(k, order, d)), d) == Ok(DecodedCursor(k, Signature(order)))
    ensures KeepsAfter(lt, base, order, Some(k), Some(CursorWhere(order, true, |params|)),
                       params + CursorParams(k, |k|))
  {
    hide CursorOf, ParsePlain, Decoded, AllLetters, IsBytes, CursorWhere, CursorParams, Holds, KeysOf, Before,
         InBytes;
    CursorReadsBack(order, d, k);
    forall r | r in base
      ensures Kept(lt, Some(CursorWhere(order, true, |params|)), params + CursorParams(k, |k|), r)
         <==> Before(lt, order, k, KeysOf(r, order))
    {
      CursorWhereIsLexicographic(lt, order, k, true, params, r);
    }
  }

  lemma BackwardClause(lt: Compare, base: seq<Columns>, order: seq<OrderTerm>, dedupe: Option<string>, d: DoubleText,
                       all: seq<seq<Value>>, k: seq<Value>, params: seq<Value>)
    requires Pageable(lt, base, order, dedupe, d, all) && CanCarry(k, order, d)
    ensures AllLetters(CursorOf(k, order, d)) && IsBytes(Decoded(CursorOf(k, order, d)))
    ensures ParsePlain(Decoded(CursorOf(k, order, d)), d) == Ok(DecodedCursor(k, Signature(order)))
    ensures KeepsBefore(lt, base, order, Some(k), Some(CursorWhere(order, false, |params|)),
                        params + CursorParams(k, |k|))
  {
    hide CursorOf, ParsePlain, Decoded, AllLetters, IsBytes, CursorWhere, CursorParams, Holds, KeysOf, Before,
         InBytes;
    CursorReadsBack(order, d, k);
    forall r | r in base
      ensures Kept(lt, Some(CursorWhere(order, false, |params|)), params + CursorParams(k, |k|), r)
         <==> Before(lt, order, KeysOf(r, order), k)
    {
      CursorWhereIsLexicographic(lt, order, k, false, params, r);
    }
  }

  /** One page. `all`, `k` and `at` say, for the proof alone, what there is, which key the cursor carries, and
      at which position the keys after it begin or those before it end. A row with that key need not exist. */
  method ExecuteCursor(lt: Compare, base: seq<Columns>, params: seq<Value>, order: seq<OrderTerm>, options: PageOptions,
                       dedupe: Option<string>, d: DoubleText,
                       ghost all: seq<seq<Value>>, ghost k: Option<seq<Value>>, ghost at: nat)
    returns (r: Result<Page, PageError>)
    requires StrictOrder(lt) && StringsInBytes(base, order, d) && at <= |all|
    ensures order == [] ==> r == Err(NoOrder)
    // options that make no sense, and cursors that cannot be used
    ensures forall e | order != [] && AtFault(options, e) :: r == Err(e)
    ensures forall e | order != [] && (forall x :: !AtFault(options, x)) && options.after.Some?
                       && Rejected(options.after.value, order, d, e) :: r == Err(e)
    ensures forall e | order != [] && (forall x :: !AtFault(options, x)) && options.before.Some?
                       && Rejected(options.before.value, order, d, e) :: r == Err(e)
    // first, after
    ensures Pageable(lt, base, order, dedupe, d, all) && Forward(options, order, d, k)
            && BeginsAfter(lt, order, all, at, k) ==>
              && r.Ok?
              && (ShowsNext(r.value, base, order, d, all, k, at, options.first.value)
                  <==> !WrapsAround(options.first.value, dedupe) || at == |all|)
              && (WrapsAround(options.first.value, dedupe) ==> r.value == NoRows())
    // last, before
    ensures Pageable(lt, base, order, dedupe, d, all) && Backward(options, order, d, k)
            && EndsBefore(lt, order, all, at, k) ==>
              && r.Ok?
              && (ShowsLast(r.value, base, order, d, all, k, at, options.last.value)
                  <==> !WrapsAround(options.last.value, dedupe) || at == 0)
              && (WrapsAround(options.last.value, dedupe) ==> r.value == NoRows())
  {
    hide StrictOrder, Pageable, Forward, Backward, Shows, ShowsNext, ShowsLast, StringsInBytes, KeysOf, CursorWhere,
         CursorParams, ParsePlain, Decoded, Signature, Filtered, KeepsAfter, KeepsBefore, BeginsAfter, EndsBefore,
         Ascending, RowLess, Makes, CutOf, HasKeys, Rising, Flip, Rejected, AtFault;
    ghost var pageable := Pageable(lt, base, order, dedupe, d, all);
    if pageable { PageableRises(lt, base, order, dedupe, d, all); }
    ghost var forward := pageable && Forward(options, order, d, k) && BeginsAfter(lt, order, all, at, k);
    ghost var backward := pageable && Backward(options, order, d, k) && EndsBefore(lt, order, all, at, k);
    if forward { ForwardFacts(lt, base, order, options, dedupe, d, all, k, params); }
    if backward { BackwardFacts(lt, base, order, options, dedupe, d, all, k, params); }
    if order == [] { return Err(NoOrder); }
    var limit := ValidateOptions(options);
    if limit.Err? { return Err(limit.error); }
    var clause := CursorClause(order, options, params, d);
    if clause.Err? { return Err(clause.error); }
    var eff := if options.last.Some? then Flip(order) else order;
    var rows, full := FetchRows(lt, base, clause.value.0, clause.value.1, eff, limit.value, dedupe);
    if forward { ForwardRows(lt, base, order, dedupe, d, clause.value.0, clause.value.1, full, all, at, k); }
    if backward { BackwardRows(lt, base, order, dedupe, d, clause.value.0, clause.value.1, full, all, at, k); }
    if rows.Err? { return Err(rows.error); }
    RowsInBytes(base, rows.value, order, d);
    if forward || backward { RowsHaveKeys(lt, base, rows.value, order, dedupe, d, all); }
    r := MakePage(rows.value, limit.value, order, options, d);
    if WrapsAround(limit.value, dedupe) {
      NoRowsMake(r.value, limit.value, order, options, d);
      NoRowsShow(base, order, d, all, k, at, limit.value);
    } else if forward {
      ForwardShows(base, order, dedupe, d, options, full, rows.value, r.value, all, k, at);
    } else if backward {
      BackwardShows(base, order, dedupe, d, options, full, rows.value, r.value, all, k, at);
    }
  }

  lemma PageableRises(lt: Compare, base: seq<Columns>, order: seq<OrderTerm>, dedupe: Option<string>,
                      d: DoubleText, all: seq<seq<Value>>)
    requires Pageable(lt, base, order, dedupe, d, all)
    ensures order != [] && Rising(lt, order, all)
  {}

  lemma RowsInBytes(base: seq<Columns>, rows: seq<Columns>, order: seq<OrderTerm>, d: DoubleText)
    requires StringsInBytes(base, order, d) && forall r | r in rows :: r in base
    ensures StringsInBytes(rows, order, d)
  {}

  lemma RowsHaveKeys(lt: Compare, base: seq<Columns>, rows: seq<Columns>, order: seq<OrderTerm>, dedupe: Option<string>,
                     d: DoubleText, all: seq<seq<Value>>)
    requires Pageable(lt, base, order, dedupe, d, all) && forall r | r in rows :: r in base
    ensures forall r | r in rows :: HasKeys(r, order)
  {}

  lemma ForwardFacts(lt: Compare, base: seq<Columns>, order: seq<OrderTerm>, o: PageOptions, dedupe: Option<string>,
                     d: DoubleText, all: seq<seq<Value>>, k: Option<seq<Value>>, params: seq<Value>)
    requires Pageable(lt, base, order, dedupe, d, all) && Forward(o, order, d, k)
    ensures o.first.Some? && o.first.value > 0 && o.last.None? && o.before.None? && (o.after.None? <==> k.None?)
    ensures k.None? ==> KeepsAfter(lt, base, order, None, None, params)
    ensures k.Some? ==>
              && o.after == Some(CursorOf(k.value, order, d)) && |k.value| == |order|
              && AllLetters(o.after.value) && IsBytes(Decoded(o.after.value))
              && ParsePlain(Decoded(o.after.value), d) == Ok(DecodedCursor(k.value, Signature(order)))
              && KeepsAfter(lt, base, order, k, Some(CursorWhere(order, true, |params|)),
                            params + CursorParams(k.value, |k.value|))
  {
    hide CursorOf, ParsePlain, Decoded, CursorWhere, CursorParams, Holds, KeysOf, Before;
    if k.Some? { ForwardClause(lt, base, order, dedupe, d, all, k.value, params); }
  }

  lemma BackwardFacts(lt: Compare, base: seq<Columns>, order: seq<OrderTerm>, o: PageOptions, dedupe: Option<string>,
                      d: DoubleText, all: seq<seq<Value>>, k: Option<seq<Value>>, params: seq<Value>)
    requires Pageable(lt, base, order, dedupe, d, all) && Backward(o, order, d, k)
    ensures o.last.Some? && o.last.value > 0 && o.first.None? && o.after.None? && (o.before.None? <==> k.None?)
    ensures k.None? ==> KeepsBefore(lt, base, order, None, None, params)
    ensures k.Some? ==>
              && o.before == Some(CursorOf(k.value, order, d)) && |k.value| == |order|
              && AllLetters(o.before.value) && IsBytes(Decoded(o.before.value))
              && ParsePlain(Decoded(o.before.value), d) == Ok(DecodedCursor(k.value, Signature(order)))
              && KeepsBefore(lt, base, order, k, Some(CursorWhere(order, false, |params|)),
                             params + CursorParams(k.value, |k.value|))
  {
    hide CursorOf, ParsePlain, Decoded, CursorWhere, CursorParams, Holds, KeysOf, Before;
    if k.Some? { BackwardClause(lt, base, order, dedupe, d, all, k.value, params); }
  }

  lemma ForwardRows(lt: Compare, base: seq<Columns>, order: seq<OrderTerm>, dedupe: Option<string>, d: DoubleText,
                    where: Option<Where>, params: seq<Value>, full: seq<Columns>, all: seq<seq<Value>>, from: nat,
                    k: Option<seq<Value>>)
    requires Pageable(lt, base, order, dedupe, d, all) && from <= |all| && Rising(lt, order, all)
    requires BeginsAfter(lt, order, all, from, k) && KeepsAfter(lt, base, order, k, where, params)
    requires multiset(full) == multiset(Filtered(lt, where, params, base)) && Ascending(full, RowLess(lt, order))
    ensures dedupe.Some? ==> HasColumn(full, dedupe.value)
    ensures KeyList(OneEach(full, dedupe), order) == all[from..]
  {
    ForwardKeys(lt, base, order, dedupe, where, params, full, all, from, k);
  }

  lemma BackwardRows(lt: Compare, base: seq<Columns>, order: seq<OrderTerm>, dedupe: Option<string>, d: DoubleText,
                     where: Option<Where>, params: seq<Value>, full: seq<Columns>, all: seq<seq<Value>>, to: nat,
                     k: Option<seq<Value>>)
    requires Pageable(lt, base, order, dedupe, d, all) && to <= |all| && Rising(lt, order, all)
    requires EndsBefore(lt, order, all, to, k) && KeepsBefore(lt, base, order, k, where, params)
    requires multiset(full) == multiset(Filtered(lt, where, params, base)) && Ascending(full, RowLess(lt, Flip(order)))
    ensures dedupe.Some? ==> HasColumn(full, dedupe.value)
    ensures KeyList(OneEach(full, dedupe), order) == Reverse(all[..to])
  {
    BackwardKeys(lt, base, order, dedupe, where, params, full, all, to, k);
  }

  /** A part of a list of rows has the part of the keys. */
  lemma KeyListPart(rows: seq<Columns>, order: seq<OrderTerm>, n: nat)
    requires n <= |rows|
    ensures KeyList(rows[..n], order) == KeyList(rows, order)[..n]
    ensures KeyList(Reverse(rows), order) == Reverse(KeyList(rows, order))
  {}

  /** What the page says, in terms of the rows taken once for each root. */
  lemma MadeFrom(base: seq<Columns>, rows: seq<Columns>, one: seq<Columns>, page: Page, limit: nat,
                 order: seq<OrderTerm>, o: PageOptions, d: DoubleText)
    requires CutOf(rows, one, limit) && Makes(page, rows, limit, order, o, d) && forall r | r in rows :: r in base
    ensures Makes(page, one, limit, order, o, d)
    ensures forall r | r in page.items :: r in base
  {
    hide KeysOf, CursorOf;
    var cut := rows[..Min(limit, |rows|)];
    forall r
      ensures r in Reverse(cut) <==> r in cut
    {
      ReverseHas(cut, r);
    }
  }

  lemma ForwardShows(base: seq<Columns>, order: seq<OrderTerm>, dedupe: Option<string>, d: DoubleText, o: PageOptions,
                     full: seq<Columns>, rows: seq<Columns>, page: Page, all: seq<seq<Value>>,
                     k: Option<seq<Value>>, from: nat)
    requires from <= |all| && o.first.Some? && o.first.value > 0 && o.last.None? && (o.after.Some? <==> k.Some?)
    requires dedupe.Some? ==> HasColumn(full, dedupe.value)
    requires KeyList(OneEach(full, dedupe), order) == all[from..]
    requires CutOf(rows, OneEach(full, dedupe), o.first.value) && forall r | r in rows :: r in base
    requires Makes(page, rows, o.first.value, order, o, d)
    ensures ShowsNext(page, base, order, d, all, k, from, o.first.value)
  {
    hide KeysOf, CursorOf, OneEach, CutOf, Shows;
    var limit, one := o.first.value, OneEach(full, dedupe);
    MadeFrom(base, rows, one, page, limit, order, o, d);
    assert |KeyList(one, order)| == |all| - from;
    KeyListPart(one, order, Min(limit, |one|));
    assert page.items == one[..Min(limit, |one|)];
    assert all[from..][..Min(limit, |one|)] == all[from..Min(from + limit, |all|)];
    ShownBy(page, base, order, d, all, from, Min(from + limit, |all|));
  }

  lemma BackwardShows(base: seq<Columns>, order: seq<OrderTerm>, dedupe: Option<string>, d: DoubleText, o: PageOptions,
                      full: seq<Columns>, rows: seq<Columns>, page: Page, all: seq<seq<Value>>,
                      k: Option<seq<Value>>, to: nat)
    requires to <= |all| && o.last.Some? && o.last.value > 0 && (o.before.Some? <==> k.Some?)
    requires dedupe.Some? ==> HasColumn(full, dedupe.value)
    requires KeyList(OneEach(full, dedupe), order) == Reverse(all[..to])
    requires CutOf(rows, OneEach(full, dedupe), o.last.value) && forall r | r in rows :: r in base
    requires Makes(page, rows, o.last.value, order, o, d)
    ensures ShowsLast(page, base, order, d, all, k, to, o.last.value)
  {
    hide KeysOf, CursorOf, OneEach, CutOf, Reverse, KeyList, Shows;
    var one, m := OneEach(full, dedupe), Min(o.last.value, to);
    MadeFrom(base, rows, one, page, o.last.value, order, o, d);
    assert |one| == to;
    KeyListPart(one, order, m);
    KeyListPart(one[..m], order, 0);
    ReverseTwice(all[..to], m);
    assert all[..to][to - m..] == all[to - m..to];
    assert KeyList(page.items, order) == all[to - m..to];
    ShownBy(page, base, order, d, all, to - m, to);
  }

  lemma ShownBy(page: Page, base: seq<Columns>, order: seq<OrderTerm>, d: DoubleText,
                all: seq<seq<Value>>, i: nat, j: nat)
    requires i <= j <= |all| && KeyList(page.items, order) == all[i..j] && forall r | r in page.items :: r in base
    requires var items := page.items;
             && page.info.start == (if items == [] then None else Some(CursorOf(KeysOf(items[0], order), order, d)))
             && page.info.end
                 == (if items == [] then None else Some(CursorOf(KeysOf(items[|items| - 1], order), order, d)))
    ensures Shows(page, base, order, d, all, i, j)
  {
    hide CursorOf, KeysOf;
    if page.items != [] {
      assert KeyList(page.items, order)[0] == all[i..j][0] == all[i];
      assert KeyList(page.items, order)[|page.items| - 1] == all[i..j][j - i - 1] == all[j - 1];
    }
  }

  lemma ReverseTwice<T>(xs: seq<T>, n: nat)
    requires n <= |xs|
    ensures Reverse(Reverse(xs)[..n]) == xs[|xs| - n..]
  {}

  // ----- all pages

  /** Following the end cursor from page to page, until a page says that there is no next one,
      gives the full result in order, each key once. */
  method PageThrough(lt: Compare, base: seq<Columns>, params: seq<Value>, order: seq<OrderTerm>, limit: Size,
                     dedupe: Option<string>, d: DoubleText, ghost all: seq<seq<Value>>)
    returns (rows: seq<Columns>)
    requires limit > 0 && Pageable(lt, base, order, dedupe, d, all) && StringsInBytes(base, order, d)
    ensures KeyList(rows, order) == all <==> !WrapsAround(limit, dedupe) || all == []
    ensures WrapsAround(limit, dedupe) ==> rows == []
    ensures forall r | r in rows :: r in base
    ensures dedupe.None? && limit < U64 - 1 ==> forall r | r in base :: r in rows
  {
    hide StrictOrder, Ordered, AllKeys, Carried, StringsInBytes, KeysOf, CursorOf, KeyList, BeginsAfter, CanCarry;
    rows := [];
    NoPages(order, all);
    var options, more := PageOptions(Some(limit), None, None, None), true;
    ghost var at, k, wraps := 0, None, WrapsAround(limit, dedupe);
    PageableRises(lt, base, order, dedupe, d, all);
    BeginsInFront(lt, order, all);
    hide Rising;
    while more
      invariant at <= |all| && (!more && !wraps ==> at == |all|) && (wraps ==> at == 0 && rows == [])
      invariant more ==> Forward(options, order, d, k) && BeginsAfter(lt, order, all, at, k)
      invariant options.first == Some(limit)
      invariant KeyList(rows, order) == all[..at]
      invariant forall r | r in rows :: r in base
      decreases more, |all| - at
    {
      var page := ExecuteCursor(lt, base, params, order, options, dedupe, d, all, k, at);
      ghost var next := if wraps then at else Min(at + limit, |all|);
      if !wraps { OnePageMore(rows, page.value.items, order, all, at, next); }
      rows := rows + page.value.items;
      at := next;
      more := page.value.info.hasNext;
      options := options.(after := page.value.info.end);
      if more {
        k := Some(all[at - 1]);
        KeyOfRow(lt, base, order, dedupe, d, all, at);
      }
    }
    assert all[..|all|] == all;
    if dedupe.None? && !wraps { AllRowsShown(lt, base, order, d, all, rows); }
  }

  /** The largest page size of all shows none of the rows that there are. */
  method HugePage(lt: Compare, base: seq<Columns>, params: seq<Value>, order: seq<OrderTerm>, d: DoubleText,
                  ghost all: seq<seq<Value>>)
    returns (page: Page)
    requires Pageable(lt, base, order, None, d, all) && StringsInBytes(base, order, d)
    ensures page == NoRows()
    ensures ShowsNext(page, base, order, d, all, None, 0, U64 - 1) <==> base == []
  {
    hide Carried, StringsInBytes, KeysOf, CursorOf, BeginsAfter, ShowsNext;
    PageableRises(lt, base, order, None, d, all);
    BeginsInFront(lt, order, all);
    var options := PageOptions(Some(U64 - 1), None, None, None);
    var r := ExecuteCursor(lt, base, params, order, options, None, d, all, None, 0);
    page := r.value;
    NoKeysNoRows(base, order, all);
  }

  lemma NoKeysNoRows(base: seq<Columns>, order: seq<OrderTerm>, all: seq<seq<Value>>)
    requires forall k :: k in all <==> exists r :: r in base && KeysOf(r, order) == k
    ensures all == [] <==> base == []
  {
    hide KeysOf;
    if base != [] { assert base[0] in base && KeysOf(base[0], order) in all; }
    if all != [] { assert all[0] in all; }
  }

  lemma BeginsInFront(lt: Compare, order: seq<OrderTerm>, all: seq<seq<Value>>)
    requires Rising(lt, order, all)
    ensures BeginsAfter(lt, order, all, 0, None)
  {}

  lemma NoPages(order: seq<OrderTerm>, all: seq<seq<Value>>)
    ensures KeyList([], order) == all[..0]
  {}

  lemma OnePageMore(rows: seq<Columns>, items: seq<Columns>, order: seq<OrderTerm>, all: seq<seq<Value>>, at: nat,
                    next: nat)
    requires at <= next <= |all| && KeyList(rows, order) == all[..at] && KeyList(items, order) == all[at..next]
    ensures KeyList(rows + items, order) == all[..next]
  {
    hide KeysOf;
    assert KeyList(rows + items, order) == KeyList(rows, order) + KeyList(items, order);
  }

  /** The key of a row can be carried by a cursor, and the keys after it begin behind it. */
  lemma KeyOfRow(lt: Compare, base: seq<Columns>, order: seq<OrderTerm>, dedupe: Option<string>, d: DoubleText,
                 all: seq<seq<Value>>, from: nat)
    requires Pageable(lt, base, order, dedupe, d, all) && StringsInBytes(base, order, d) && 0 < from <= |all|
    ensures Rising(lt, order, all) && CanCarry(all[from - 1], order, d)
    ensures BeginsAfter(lt, order, all, from, Some(all[from - 1]))
  {
    hide StrictOrder, Carried, StringsInBytes, KeysOf, CanCarry, Before, HasColumn, KeysApart;
    assert all[from - 1] in all;
    RowKeyCanBeCarried(base, order, d, all[from - 1]);
    BeginsBehind(lt, order, all, from);
  }

  /** Where keys tell rows apart, rows of the table with all the keys are all the rows of the table. */
  lemma AllRowsShown(lt: Compare, base: seq<Columns>, order: seq<OrderTerm>, d: DoubleText, all: seq<seq<Value>>,
                     rows: seq<Columns>)
    requires Pageable(lt, base, order, None, d, all)
    requires KeyList(rows, order) == all && forall r | r in rows :: r in base
    ensures forall r | r in base :: r in rows
  {
    hide Before, KeysOf, Carried;
    forall r | r in base
      ensures r in rows
    {
      assert KeysOf(r, order) in all;
      KeyListHas(rows, order, KeysOf(r, order));
      var s :| s in rows && KeysOf(s, order) == KeysOf(r, order);
      var i :| 0 <= i < |base| && base[i] == r;
      var j :| 0 <= j < |base| && base[j] == s;
      assert i == j;
    }
  }

  /** There is always such a list of keys: every result can be paged through. */
  method KeysInOrder(lt: Compare, base: seq<Columns>, order: seq<OrderTerm>, dedupe: Option<string>)
    returns (ghost all: seq<seq<Value>>)
    requires StrictOrder(lt) && Ordered(base, order, dedupe)
    ensures AllKeys(lt, base, order, all)
  {
    var rows, full := RunQuery(lt, base, None, [], order, None);
    AnswerRises(lt, base, order, order, dedupe, None, [], full);
    all := KeyList(OneEach(full, dedupe), order);
    forall k
      ensures k in all <==> exists r :: r in base && KeysOf(r, order) == k
    {
      KeyListHas(OneEach(full, dedupe), order, k);
    }
  }
}
