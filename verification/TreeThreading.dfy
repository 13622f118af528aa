/** Building linked nodes from rows sorted by left boundary. */
module TreeThreading {
  import opened NestedSets
  import opened TreeTables
  import opened Intervals

  datatype Threaded = Threaded(node: NodeResult, children: seq<Threaded>)

  /** The rows of a tree, parents first. */
  function Flat(t: Threaded): (rows: seq<NodeResult>)
    ensures |rows| > 0 && rows[0] == t.node
  {
    [t.node] + FlatAll(t.children)
  }

  function FlatAll(ts: seq<Threaded>): seq<NodeResult> {
    if ts == [] then [] else Flat(ts[0]) + FlatAll(ts[1..])
  }

  lemma {:induction false} FlatAppend(ts: seq<Threaded>, t: Threaded)
    ensures FlatAll(ts + [t]) == FlatAll(ts) + Flat(t)
  {
    if ts == [] {
      assert FlatAll([t][1..]) == [];
    } else {
      assert (ts + [t])[1..] == ts[1..] + [t];
      FlatAppend(ts[1..], t);
    }
  }

  /** `t` is what the parser makes of rows `i` to `j - 1`: each child starts left of the right
      boundary of its parent, and the row after a tree does not. */
  ghost predicate Parsed(t: Threaded, rows: seq<NodeResult>, i: nat, j: nat)
    decreases t, 0
  {
    && i < j <= |rows| && t.node == rows[i]
    && ParsedAll(t.children, rows, i + 1, j, t.node.spot.rght)
    && (j < |rows| ==> rows[j].spot.lft >= t.node.spot.rght)
  }

  /** `ts` are trees that follow one another from row `i` to row `j - 1`, all starting before `limit`. */
  ghost predicate ParsedAll(ts: seq<Threaded>, rows: seq<NodeResult>, i: nat, j: nat, limit: int)
    decreases ts, 1
  {
    if ts == [] then i == j
    else exists k: nat :: i < k <= j <= |rows| && Parsed(ts[0], rows, i, k) && rows[i].spot.lft < limit
                          && ParsedAll(ts[1..], rows, k, j, limit)
  }

  lemma {:induction false} ParsedAppend(ts: seq<Threaded>, t: Threaded, rows: seq<NodeResult>, i: nat, k: nat, j: nat,
                                        limit: int)
    requires ParsedAll(ts, rows, i, k, limit) && Parsed(t, rows, k, j) && rows[k].spot.lft < limit
    ensures ParsedAll(ts + [t], rows, i, j, limit)
  {
    if ts == [] {
      assert ParsedAll((ts + [t])[1..], rows, j, j, limit);
    } else {
      var n: nat :| i < n <= k <= |rows| && Parsed(ts[0], rows, i, n) && rows[i].spot.lft < limit
                    && ParsedAll(ts[1..], rows, n, k, limit);
      ParsedAppend(ts[1..], t, rows, n, k, j, limit);
      assert (ts + [t])[1..] == ts[1..] + [t];
    }
  }

  /** Parses one tree from `index` on. Whatever the boundaries are, every call takes a row. */
  method ParseOne(rows: seq<NodeResult>, index: nat) returns (out: Threaded, next: nat)
    requires index < |rows|
    ensures Parsed(out, rows, index, next)
    ensures index < next <= |rows| && Flat(out) == rows[index..next]
    decreases |rows| - index
  {
    var node := rows[index];
    var boundary := node.spot.rght;
    var children := [];
    next := index + 1;
    while next < |rows| && rows[next].spot.lft < boundary
      invariant index < next <= |rows|
      invariant ParsedAll(children, rows, index + 1, next, boundary)
      invariant FlatAll(children) == rows[index + 1..next]
    {
      var child, after := ParseOne(rows, next);
      FlatAppend(children, child);
      ParsedAppend(children, child, rows, index + 1, next, after, boundary);
      children := children + [child];
      next := after;
    }
    out := Threaded(node, children);
  }

  /** Walking the result parents first gives back every row list. */
  method ToThreaded(rows: seq<NodeResult>) returns (result: seq<Threaded>)
    ensures FlatAll(result) == rows
    ensures SortedIntervals(rows) ==>
              forall x, y | x in rows && y in rows :: BelowAny(result, x, y) <==> Inside(x.spot, y.spot)
  {
    var index := 0;
    result := [];
    ghost var limit := Limit(rows);
    while index < |rows|
      invariant index <= |rows|
      invariant ParsedAll(result, rows, 0, index, limit)
      invariant FlatAll(result) == rows[..index]
    {
      var t, next := ParseOne(rows, index);
      FlatAppend(result, t);
      ParsedAppend(result, t, rows, 0, index, next, limit);
      result := result + [t];
      index := next;
    }
    assert rows[..|rows|] == rows;
    if SortedIntervals(rows) {
      ThreadedIsNested(result, rows, limit);
    }
  }

  /** Beyond every left boundary. */
  function Limit(rows: seq<NodeResult>): (limit: int)
    ensures forall r | r in rows :: r.spot.lft < limit
  {
    if rows == [] then 0
    else if Limit(rows[1..]) > rows[0].spot.lft then Limit(rows[1..]) else rows[0].spot.lft + 1
  }

  // ----- what lies below what

  /** `x` lies below `y` in the tree. */
  ghost predicate Below(t: Threaded, x: NodeResult, y: NodeResult)
    decreases t, 0
  {
    (t.node == y && x in FlatAll(t.children)) || BelowAny(t.children, x, y)
  }

  ghost predicate BelowAny(ts: seq<Threaded>, x: NodeResult, y: NodeResult)
    decreases ts, 1
  {
    ts != [] && (Below(ts[0], x, y) || BelowAny(ts[1..], x, y))
  }

  /** Valid rows, in the order of their left boundaries. */
  ghost predicate SortedIntervals(rows: seq<NodeResult>) {
    && (forall r | r in rows :: r.spot.lft < r.spot.rght)
    && (forall i, j | 0 <= i < j < |rows| ::
          rows[i].spot.lft < rows[j].spot.lft && Untangled(rows[i].spot, rows[j].spot))
  }

  lemma {:induction false} FlatOf(t: Threaded, rows: seq<NodeResult>, i: nat, j: nat)
    requires Parsed(t, rows, i, j)
    ensures Flat(t) == rows[i..j]
    decreases t, 0
  {
    FlatAllOf(t.children, rows, i + 1, j, t.node.spot.rght);
  }

  lemma {:induction false} FlatAllOf(ts: seq<Threaded>, rows: seq<NodeResult>, i: nat, j: nat, limit: int)
    requires i <= j <= |rows| && ParsedAll(ts, rows, i, j, limit)
    ensures FlatAll(ts) == rows[i..j]
    decreases ts, 1
  {
    if ts != [] {
      var k: nat :| i < k <= j <= |rows| && Parsed(ts[0], rows, i, k) && rows[i].spot.lft < limit
                    && ParsedAll(ts[1..], rows, k, j, limit);
      FlatOf(ts[0], rows, i, k);
      FlatAllOf(ts[1..], rows, k, j, limit);
      assert rows[i..j] == rows[i..k] + rows[k..j];
    }
  }

  /** All rows of a tree lie in the interval of its root. */
  lemma {:induction false} ExtentIsInside(t: Threaded, rows: seq<NodeResult>, i: nat, j: nat, a: nat)
    requires SortedIntervals(rows) && Parsed(t, rows, i, j) && i < a < j
    ensures Inside(rows[a].spot, rows[i].spot)
    decreases t, 0
  {
    ExtentsAreInside(t.children, rows, i + 1, j, i, a);
  }

  lemma {:induction false} ExtentsAreInside(ts: seq<Threaded>, rows: seq<NodeResult>, i: nat, j: nat, y: nat, a: nat)
    requires SortedIntervals(rows) && y < i <= a < j <= |rows|
    requires ParsedAll(ts, rows, i, j, rows[y].spot.rght)
    ensures Inside(rows[a].spot, rows[y].spot)
    decreases ts, 1
  {
    var limit := rows[y].spot.rght;
    var k: nat :| i < k <= j <= |rows| && Parsed(ts[0], rows, i, k) && rows[i].spot.lft < limit
                  && ParsedAll(ts[1..], rows, k, j, limit);
    assert rows[i] in rows && rows[a] in rows && Untangled(rows[y].spot, rows[i].spot);
    if a == i {
    } else if a < k {
      ExtentIsInside(ts[0], rows, i, k, a);
    } else {
      ExtentsAreInside(ts[1..], rows, k, j, y, a);
    }
  }

  /** The rows in the interval of the root of a tree are the rows of the tree. */
  lemma InsideIsExtent(t: Threaded, rows: seq<NodeResult>, i: nat, j: nat, a: nat)
    requires SortedIntervals(rows) && Parsed(t, rows, i, j) && a < |rows|
    ensures Inside(rows[a].spot, rows[i].spot) <==> i < a < j
    ensures rows[a] in FlatAll(t.children) <==> i < a < j
  {
    FlatAllOf(t.children, rows, i + 1, j, t.node.spot.rght);
    assert rows[a] in rows;
    if i < a < j {
      ExtentIsInside(t, rows, i, j, a);
      assert rows[i + 1..j][a - i - 1] == rows[a];
    }
  }

  /** One row lies below another in a parsed tree exactly if its interval lies in the other's. */
  lemma {:induction false} BelowIsInside(t: Threaded, rows: seq<NodeResult>, i: nat, j: nat, a: nat, b: nat)
    requires SortedIntervals(rows) && Parsed(t, rows, i, j) && a < |rows| && b < |rows|
    ensures Below(t, rows[a], rows[b]) <==> i <= b < j && Inside(rows[a].spot, rows[b].spot)
    decreases t, 0
  {
    InsideIsExtent(t, rows, i, j, a);
    BelowAnyIsInside(t.children, rows, i + 1, j, t.node.spot.rght, a, b);
  }

  lemma {:induction false} BelowAnyIsInside(ts: seq<Threaded>, rows: seq<NodeResult>, i: nat, j: nat, limit: int,
                                            a: nat, b: nat)
    requires SortedIntervals(rows) && i <= j && ParsedAll(ts, rows, i, j, limit) && a < |rows| && b < |rows|
    ensures BelowAny(ts, rows[a], rows[b]) <==> i <= b < j && Inside(rows[a].spot, rows[b].spot)
    decreases ts, 1
  {
    if ts != [] {
      var k: nat :| i < k <= j <= |rows| && Parsed(ts[0], rows, i, k) && rows[i].spot.lft < limit
                    && ParsedAll(ts[1..], rows, k, j, limit);
      BelowIsInside(ts[0], rows, i, k, a, b);
      BelowAnyIsInside(ts[1..], rows, k, j, limit, a, b);
    }
  }

  /** The same for the whole result of the parser. */
  lemma ThreadedIsNested(ts: seq<Threaded>, rows: seq<NodeResult>, limit: int)
    requires SortedIntervals(rows) && ParsedAll(ts, rows, 0, |rows|, limit)
    ensures forall x, y | x in rows && y in rows :: BelowAny(ts, x, y) <==> Inside(x.spot, y.spot)
  {
    forall x, y | x in rows && y in rows
      ensures BelowAny(ts, x, y) <==> Inside(x.spot, y.spot)
    {
      var a :| 0 <= a < |rows| && rows[a] == x;
      var b :| 0 <= b < |rows| && rows[b] == y;
      BelowAnyIsInside(ts, rows, 0, |rows|, limit, a, b);
    }
  }
}
