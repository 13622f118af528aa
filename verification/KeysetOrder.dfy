/** The order of a keyset query, and the predicate that selects what comes after a cursor. */
module KeysetOrder {
  import opened Wrappers
  import opened Values
  import opened Sorting
  import opened Cursors

  /** How the database orders values. */
  type Compare = (Value, Value) -> bool

  /** The values of the order columns. */
  function KeysOf(row: Columns, order: seq<OrderTerm>): (k: seq<Value>)
    ensures |k| == |order|
  {
    seq(|order|, i requires 0 <= i < |order| => if order[i].column in row then row[order[i].column] else Null)
  }

  /** `x` comes before `y`: the first column in which they differ decides, in its own direction. */
  predicate Before(lt: Compare, order: seq<OrderTerm>, x: seq<Value>, y: seq<Value>)
    requires |x| == |y| == |order|
  {
    order != [] &&
      if x[0] == y[0] then Before(lt, order[1..], x[1..], y[1..])
      else if order[0].ascending then lt(x[0], y[0])
      else lt(y[0], x[0])
  }

  /** The opposite direction in every column. */
  function Flip(order: seq<OrderTerm>): (f: seq<OrderTerm>)
    ensures |f| == |order|
  {
    seq(|order|, i requires 0 <= i < |order| => order[i].(ascending := !order[i].ascending))
  }

  lemma FlipTail(order: seq<OrderTerm>)
    requires order != []
    ensures Flip(order)[1..] == Flip(order[1..])
  {}

  lemma {:induction false} FlipReverses(lt: Compare, order: seq<OrderTerm>, x: seq<Value>, y: seq<Value>)
    requires |x| == |y| == |order|
    ensures Before(lt, Flip(order), x, y) <==> Before(lt, order, y, x)
  {
    if order != [] {
      FlipTail(order);
      FlipReverses(lt, order[1..], x[1..], y[1..]);
    }
  }

  lemma FlipKeepsKeys(row: Columns, order: seq<OrderTerm>)
    ensures KeysOf(row, Flip(order)) == KeysOf(row, order)
  {}

  lemma {:induction false} BeforeIrreflexive(lt: Compare, order: seq<OrderTerm>, x: seq<Value>)
    requires |x| == |order|
    ensures !Before(lt, order, x, x)
  {
    if order != [] { BeforeIrreflexive(lt, order[1..], x[1..]); }
  }

  lemma {:induction false} BeforeTransitive(lt: Compare, order: seq<OrderTerm>, x: seq<Value>, y: seq<Value>,
                                            z: seq<Value>)
    requires StrictOrder(lt) && |x| == |y| == |z| == |order|
    requires Before(lt, order, x, y) && Before(lt, order, y, z)
    ensures Before(lt, order, x, z)
  {
    if x[0] == y[0] && y[0] == z[0] {
      BeforeTransitive(lt, order[1..], x[1..], y[1..], z[1..]);
    }
  }

  lemma {:induction false} BeforeTotal(lt: Compare, order: seq<OrderTerm>, x: seq<Value>, y: seq<Value>)
    requires StrictOrder(lt) && |x| == |y| == |order|
    ensures x == y || Before(lt, order, x, y) || Before(lt, order, y, x)
  {
    if order != [] && x[0] == y[0] {
      BeforeTotal(lt, order[1..], x[1..], y[1..]);
      assert x == [x[0]] + x[1..] && y == [y[0]] + y[1..];
    }
  }

  // ----- the predicate

  datatype Op = Eq | Gt | Lt

  /** column op placeholder */
  datatype Atom = Atom(column: string, op: Op, placeholder: nat)

  /** An OR of ANDs. */
  type Where = seq<seq<Atom>>

  /** A comparison with null is not true. */
  predicate AtomHolds(lt: Compare, row: Columns, params: seq<Value>, a: Atom) {
    && a.column in row && !row[a.column].Null? && 1 <= a.placeholder <= |params|
    && match a.op
       case Eq => row[a.column] == params[a.placeholder - 1]
       case Gt => lt(params[a.placeholder - 1], row[a.column])
       case Lt => lt(row[a.column], params[a.placeholder - 1])
  }

  predicate AllHold(lt: Compare, row: Columns, params: seq<Value>, atoms: seq<Atom>) {
    forall j | 0 <= j < |atoms| :: AtomHolds(lt, row, params, atoms[j])
  }

  predicate Holds(lt: Compare, row: Columns, params: seq<Value>, where: Where) {
    exists i :: 0 <= i < |where| && AllHold(lt, row, params, where[i])
  }

  /** How many placeholders there are in the first `i` conjunctions. */
  function Triangle(i: nat): nat { if i == 0 then 0 else Triangle(i - 1) + i }

  /** Atom `j` of conjunction `i`. */
  function AtomAt(order: seq<OrderTerm>, after: bool, base: nat, i: nat, j: nat): Atom
    requires j <= i < |order|
  {
    Atom(order[j].column, if j < i then Eq else if after == order[j].ascending then Gt else Lt,
         base + Triangle(i) + j + 1)
  }

  /** Conjunction `i`: equal in the columns before column `i`, further on in that one. */
  function Conjunction(order: seq<OrderTerm>, after: bool, base: nat, i: nat): seq<Atom>
    requires i < |order|
  {
    seq(i + 1, j requires 0 <= j < i + 1 => AtomAt(order, after, base, i, j))
  }

  function CursorWhere(order: seq<OrderTerm>, after: bool, base: nat): Where {
    seq(|order|, i requires 0 <= i < |order| => Conjunction(order, after, base, i))
  }

  function CursorParams(values: seq<Value>, i: nat): (ps: seq<Value>)
    requires i <= |values|
    ensures |ps| == Triangle(i)
  {
    if i == 0 then [] else CursorParams(values, i - 1) + values[..i]
  }

  /** Placeholders count on from the parameters that are there, one for each, left to right. */
  method AppendCursorPredicate(base: seq<Value>, order: seq<OrderTerm>, values: seq<Value>, after: bool)
    returns (r: Result<(Where, seq<Value>), CursorError>)
    ensures |values| != |order| ==> r == Err(InvalidPayload)
    ensures |values| == |order| ==>
              r == Ok((CursorWhere(order, after, |base|), base + CursorParams(values, |values|)))
  {
    if |values| != |order| {
      return Err(InvalidPayload);
    }
    var where: Where, params := [], base;
    for i := 0 to |order|
      invariant where == CursorWhere(order, after, |base|)[..i]
      invariant params == base + CursorParams(values, i)
    {
      var atoms := [];
      for j := 0 to i
        invariant atoms == Conjunction(order, after, |base|, i)[..j]
        invariant params == base + CursorParams(values, i) + values[..j]
      {
        atoms := atoms + [Atom(order[j].column, Eq, |params| + 1)];
        params := params + [values[j]];
        assert values[..j + 1] == values[..j] + [values[j]];
      }
      var greater := if after then order[i].ascending else !order[i].ascending;
      atoms := atoms + [Atom(order[i].column, if greater then Gt else Lt, |params| + 1)];
      params := params + [values[i]];
      assert values[..i + 1] == values[..i] + [values[i]];
      assert params == base + (CursorParams(values, i) + values[..i + 1]);
      assert atoms == Conjunction(order, after, |base|, i);
      where := where + [atoms];
    }
    assert CursorWhere(order, after, |base|)[..|order|] == CursorWhere(order, after, |base|);
    return Ok((where, params));
  }

  // ----- what it means

  ghost predicate HasKeys(row: Columns, order: seq<OrderTerm>) {
    forall i | 0 <= i < |order| :: order[i].column in row && !row[order[i].column].Null?
  }

  /** `x` and `y` agree before column `i`, and there `x` comes first. */
  predicate DecidedAt(lt: Compare, order: seq<OrderTerm>, x: seq<Value>, y: seq<Value>, i: nat)
    requires |x| == |y| == |order|
  {
    && i < |order| && (forall j | 0 <= j < i :: x[j] == y[j])
    && if order[i].ascending then lt(x[i], y[i]) else lt(y[i], x[i])
  }

  lemma {:induction false} BeforeIsDecided(lt: Compare, order: seq<OrderTerm>, x: seq<Value>, y: seq<Value>)
    requires StrictOrder(lt) && |x| == |y| == |order|
    ensures Before(lt, order, x, y) <==> exists i: nat :: DecidedAt(lt, order, x, y, i)
  {
    if order != [] {
      BeforeIsDecided(lt, order[1..], x[1..], y[1..]);
      if x[0] == y[0] {
        forall i: nat
          ensures DecidedAt(lt, order[1..], x[1..], y[1..], i) <==> DecidedAt(lt, order, x, y, i + 1)
        {
          assert i < |order| - 1 ==> forall j | 0 <= j < i + 1 :: j == 0 || x[j] == x[1..][j - 1];
        }
        assert !DecidedAt(lt, order, x, y, 0);
        if i: nat :| DecidedAt(lt, order, x, y, i) {
          assert DecidedAt(lt, order[1..], x[1..], y[1..], i - 1);
        }
        if i: nat :| DecidedAt(lt, order[1..], x[1..], y[1..], i) {
          assert DecidedAt(lt, order, x, y, i + 1);
        }
      } else {
        if Before(lt, order, x, y) { assert DecidedAt(lt, order, x, y, 0); }
      }
    }
  }

  lemma {:induction false} ParamAt(values: seq<Value>, n: nat, i: nat, j: nat)
    requires j <= i < n <= |values|
    ensures Triangle(i) + j < Triangle(n) && CursorParams(values, n)[Triangle(i) + j] == values[j]
  {
    if i < n - 1 { ParamAt(values, n - 1, i, j); }
  }

  /** The OR of prefix equalities means: after the cursor in the order of the query, whatever mix of
      directions that is; and in the other mode, before it. */
  lemma CursorWhereIsLexicographic(lt: Compare, order: seq<OrderTerm>, values: seq<Value>, after: bool,
                                   base: seq<Value>, row: Columns)
    requires StrictOrder(lt) && |values| == |order| && HasKeys(row, order)
    ensures var k := KeysOf(row, order);
            Holds(lt, row, base + CursorParams(values, |values|), CursorWhere(order, after, |base|))
            <==> if after then Before(lt, order, values, k) else Before(lt, order, k, values)
  {
    var k, where := KeysOf(row, order), CursorWhere(order, after, |base|);
    var params := base + CursorParams(values, |values|);
    forall i: nat | i < |order|
      ensures AllHold(lt, row, params, where[i])
         <==> if after then DecidedAt(lt, order, values, k, i) else DecidedAt(lt, order, k, values, i)
    {
      ConjunctionMeans(lt, order, values, after, base, row, i);
    }
    BeforeIsDecided(lt, order, values, k);
    BeforeIsDecided(lt, order, k, values);
  }

  lemma ConjunctionMeans(lt: Compare, order: seq<OrderTerm>, values: seq<Value>, after: bool,
                         base: seq<Value>, row: Columns, i: nat)
    requires |values| == |order| && HasKeys(row, order) && i < |order|
    ensures var k := KeysOf(row, order);
            AllHold(lt, row, base + CursorParams(values, |values|), Conjunction(order, after, |base|, i))
            <==> if after then DecidedAt(lt, order, values, k, i) else DecidedAt(lt, order, k, values, i)
  {
    hide AtomHolds, CursorParams;
    var params, atoms := base + CursorParams(values, |values|), Conjunction(order, after, |base|, i);
    var k := KeysOf(row, order);
    forall j: nat | j <= i
      ensures AtomHolds(lt, row, params, atoms[j]) <==>
              if j < i then k[j] == values[j]
              else if after == order[j].ascending then lt(values[j], k[j]) else lt(k[j], values[j])
    {
      AtomMeans(lt, order, values, after, base, row, i, j);
    }
    assert AllHold(lt, row, params, atoms)
        <==> AtomHolds(lt, row, params, atoms[i]) && forall j | 0 <= j < i :: k[j] == values[j];
  }

  lemma AtomMeans(lt: Compare, order: seq<OrderTerm>, values: seq<Value>, after: bool,
                  base: seq<Value>, row: Columns, i: nat, j: nat)
    requires |values| == |order| && HasKeys(row, order) && j <= i < |order|
    ensures var k := KeysOf(row, order);
            AtomHolds(lt, row, base + CursorParams(values, |values|), AtomAt(order, after, |base|, i, j)) <==>
              if j < i then k[j] == values[j]
              else if after == order[j].ascending then lt(values[j], k[j]) else lt(k[j], values[j])
  {
    var params := base + CursorParams(values, |values|);
    ParamAt(values, |values|, i, j);
    hide CursorParams, Triangle;
    assert params[|base| + Triangle(i) + j] == values[j];
    assert order[j].column in row && !row[order[j].column].Null?;
  }
}
