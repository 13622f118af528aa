/** SQL statements over a whole table, and what they do to the places of the rows in scope. */
module TreeTables {
  import opened Wrappers
  import opened Forests
  import opened NestedSets
  import opened NestedSetSurgery

  /** A distance that takes isolated rows out of the way. */
  const TEMP: int := 10000000

  /** UPDATE: every row in scope at once, by its old values. A WHERE clause is part of `f`. */
  function Update(t: Table, s: Scope, f: Spot -> Spot): Table {
    map k | k in t :: if InScope(s, t[k].columns) then Row(f(t[k].spot), t[k].columns) else t[k]
  }

  lemma UpdateMaps(t: Table, s: Scope, f: Spot -> Spot)
    ensures Update(t, s, f).Keys == t.Keys
    ensures Others(Update(t, s, f), s) == Others(t, s)
    ensures Places(Update(t, s, f), s) == map k | k in Places(t, s) :: f(Places(t, s)[k])
    ensures Contents(Update(t, s, f), s) == Contents(t, s)
  {}

  /** UPDATE ... WHERE pk = k */
  function UpdateOne(t: Table, s: Scope, k: Key, spot: Spot): Table {
    if k in t && InScope(s, t[k].columns) then t[k := t[k].(spot := spot)] else t
  }

  lemma UpdateOneSets(t: Table, s: Scope, k: Key, spot: Spot)
    ensures UpdateOne(t, s, k, spot).Keys == t.Keys
    ensures Others(UpdateOne(t, s, k, spot), s) == Others(t, s)
    ensures Places(UpdateOne(t, s, k, spot), s) == if k in Places(t, s) then Places(t, s)[k := spot] else Places(t, s)
    ensures Contents(UpdateOne(t, s, k, spot), s) == Contents(t, s)
  {}

  predicate Spans(lft: int, rght: int, p: Spot) { p.lft >= lft && p.rght <= rght }

  /** DELETE ... WHERE lft >= lft AND rght <= rght */
  function DeleteSpan(t: Table, s: Scope, lft: int, rght: int): Table {
    map k | k in t && !(InScope(s, t[k].columns) && Spans(lft, rght, t[k].spot)) :: t[k]
  }

  lemma DeleteSpanDrops(t: Table, s: Scope, lft: int, rght: int)
    ensures DeleteSpan(t, s, lft, rght).Keys <= t.Keys
    ensures Others(DeleteSpan(t, s, lft, rght), s) == Others(t, s)
    ensures Places(DeleteSpan(t, s, lft, rght), s) == Outside(Places(t, s), lft, rght)
    ensures Contents(DeleteSpan(t, s, lft, rght), s)
         == map k | k in Contents(t, s) && k in Outside(Places(t, s), lft, rght) :: Contents(t, s)[k]
  {}

  /** INSERT, with the scope columns set over whatever the caller gave. */
  function Insert(t: Table, s: Scope, k: Key, spot: Spot, columns: map<string, int>): Table {
    t[k := Row(spot, columns + s)]
  }

  /** The values of the caller in every column outside the scope, and those of the scope in its own. */
  function Stored(given: map<string, int>, s: Scope): map<string, int> {
    map c | c in given.Keys + s.Keys :: if c in s then s[c] else given[c]
  }

  lemma InsertAdds(t: Table, s: Scope, k: Key, spot: Spot, columns: map<string, int>)
    requires k !in t
    ensures Others(Insert(t, s, k, spot, columns), s) == Others(t, s)
    ensures Places(Insert(t, s, k, spot, columns), s) == Places(t, s)[k := spot]
    ensures Contents(Insert(t, s, k, spot, columns), s) == Contents(t, s)[k := Stored(columns, s)]
  {
    StoredIsIn(columns, s);
    hide InScope, Stored;
  }

  lemma StoredIsIn(columns: map<string, int>, s: Scope)
    ensures columns + s == Stored(columns, s) && InScope(s, columns + s)
  {}

  // ----- statements seen on the places alone

  /** Every row moved by one edit. */
  ghost function Edited(m: map<Key, Spot>, e: Edit): map<Key, Spot> {
    map k | k in m :: e.Apply(m[k])
  }

  /** The rows whose spans do not lie in `lft`..`rght`. */
  ghost function Outside(m: map<Key, Spot>, lft: int, rght: int): map<Key, Spot> {
    map k | k in m && !Spans(lft, rght, m[k]) :: m[k]
  }

  function Carry(p: Spot, lft: int, rght: int, delta: int, deeper: int): Spot {
    if Spans(lft, rght, p) then p.(lft := p.lft + delta, rght := p.rght + delta, depth := p.depth + deeper) else p
  }

  /** The rows whose spans lie in `lft`..`rght`, moved together. */
  ghost function Carried(m: map<Key, Spot>, lft: int, rght: int, delta: int, deeper: int): map<Key, Spot> {
    map k | k in m :: Carry(m[k], lft, rght, delta, deeper)
  }

  /** A child of `from`, hung under `to`; another row as it is. */
  function Rehang(p: Spot, from: Key, to: Option<Key>): Spot {
    if p.parent == Some(from) then p.(parent := to) else p
  }

  ghost function Rehung(m: map<Key, Spot>, from: Key, to: Option<Key>): map<Key, Spot> {
    map k | k in m :: Rehang(m[k], from, to)
  }

  ghost predicate IsMaxRght(m: map<Key, Spot>, r: int) {
    if m == map[] then r == 0
    else (exists k :: k in m && m[k].rght == r) && forall k | k in m :: m[k].rght <= r
  }

  ghost predicate Positive(m: map<Key, Spot>) {
    forall x | x in m :: 1 <= m[x].lft < m[x].rght
  }

  // ----- scripts seen on the places alone

  /** Where a row goes when the subtree at `at` moves to `target`: along with it,
      or past the gap that closes and the one that opens. */
  function Relocate(p: Spot, at: Spot, target: int, depth: int): Spot {
    if Spans(at.lft, at.rght, p)
    then p.(lft := p.lft + target - at.lft, rght := p.rght + target - at.lft, depth := p.depth + depth - at.depth)
    else Open(target, at.rght - at.lft + 1).Apply(Close(at.rght, at.rght - at.lft + 1).Apply(p))
  }

  ghost function Relocated(m: map<Key, Spot>, at: Spot, target: int, depth: int): map<Key, Spot> {
    map x | x in m :: Relocate(m[x], at, target, depth)
  }

  /** The statements of a move, one after the other, on one row. */
  function MoveStatements(p: Spot, at: Spot, isolate: int, target: int, depth: int): Spot {
    var p1 := Carry(p, at.lft, at.rght, isolate, 0);
    var p2 := Close(at.rght, at.rght - at.lft + 1).Apply(p1);
    var p3 := Open(target, at.rght - at.lft + 1).Apply(p2);
    Carry(p3, at.lft + isolate, at.rght + isolate, target - at.lft - isolate, depth - at.depth)
  }

  /** No row outside the subtree is caught by the isolation below zero, whatever the size of the table. */
  lemma IsolatedThenRestored(p: Spot, at: Spot, isolate: int, target: int, depth: int)
    requires 1 <= p.lft < p.rght && 1 <= at.lft < at.rght
    requires target >= 1 && isolate < -at.rght
    ensures MoveStatements(p, at, isolate, target, depth) == Relocate(p, at, target, depth)
  {}

  /** The same for a whole table. */
  lemma MoveComposed(m: map<Key, Spot>, at: Spot, isolate: int, target: int, depth: int)
    requires Positive(m)
    requires 1 <= at.lft < at.rght && target >= 1 && isolate < -at.rght
    ensures var m1 := Carried(m, at.lft, at.rght, isolate, 0);
            var m2 := Edited(m1, Close(at.rght, at.rght - at.lft + 1));
            var m3 := Edited(m2, Open(target, at.rght - at.lft + 1));
            Relocated(m, at, target, depth)
            == Carried(m3, at.lft + isolate, at.rght + isolate, target - at.lft - isolate, depth - at.depth)
  {
    hide Carry, Relocate, Edit.Apply;
    forall x | x in m
      ensures MoveStatements(m[x], at, isolate, target, depth) == Relocate(m[x], at, target, depth)
    {
      IsolatedThenRestored(m[x], at, isolate, target, depth);
    }
  }

  /** `p` lies strictly inside `q`, strictly around it, or clear of it. */
  predicate Untangled(p: Spot, q: Spot) {
    || q.lft < p.lft < p.rght < q.rght
    || p.lft < q.lft < q.rght < p.rght
    || p.rght < q.lft || q.rght < p.lft
  }

  /** The statements of a removal of `k`, one after the other, on another row. */
  function RemoveStatements(p: Spot, at: Spot, k: Key): Spot {
    var p1 := Rehang(p, k, at.parent);
    var p2 := Carry(p1, at.lft + 1, at.rght - 1, -1, -1);
    Close(at.rght, 2).Apply(p2)
  }

  lemma ShellTakenOut(p: Spot, at: Spot, k: Key)
    requires 1 <= p.lft < p.rght && 1 <= at.lft < at.rght && Untangled(p, at)
    ensures RemoveStatements(p, at, k) == Unwrap(k, at).Apply(p)
  {}

  /** Where the rows stand once `k` has left its place for the end of the roots. */
  ghost function Retired(m: map<Key, Spot>, k: Key, last: int): map<Key, Spot>
    requires k in m
  {
    map x | x in m :: if x == k then Spot(last - 1, last, None, 0) else Unwrap(k, m[k]).Apply(m[x])
  }

  /** The same for a whole table, one map for each statement. */
  lemma RemoveComposed(m: map<Key, Spot>, m1: map<Key, Spot>, m2: map<Key, Spot>, m3: map<Key, Spot>,
                       k: Key, last: int)
    requires k in m
    requires Positive(m)
    requires forall x | x in m :: x == k || Untangled(m[x], m[k])
    requires m1 == Rehung(m, k, m[k].parent)
    requires m2 == if m[k].rght - m[k].lft > 1 then Carried(m1, m[k].lft + 1, m[k].rght - 1, -1, -1) else m1
    requires m3 == Edited(m2, Close(m[k].rght, 2))
    ensures k in m3 && m3[k := Spot(last - 1, last, None, 0)] == Retired(m, k, last)
  {
    hide Carry, Rehang, Edit.Apply;
    forall x | x in m && x != k
      ensures m3[x] == Unwrap(k, m[k]).Apply(m[x])
    {
      RemovedRow(m, m1, m2, m3, k, x);
    }
    assert m3.Keys == m.Keys;
  }

  lemma RemovedRow(m: map<Key, Spot>, m1: map<Key, Spot>, m2: map<Key, Spot>, m3: map<Key, Spot>, k: Key, x: Key)
    requires k in m && x in m && x != k && Positive(m) && Untangled(m[x], m[k])
    requires m1 == Rehung(m, k, m[k].parent)
    requires m2 == if m[k].rght - m[k].lft > 1 then Carried(m1, m[k].lft + 1, m[k].rght - 1, -1, -1) else m1
    requires m3 == Edited(m2, Close(m[k].rght, 2))
    ensures x in m3 && m3[x] == Unwrap(k, m[k]).Apply(m[x])
  {
    assert m2[x] == Carry(Rehang(m[x], k, m[k].parent), m[k].lft + 1, m[k].rght - 1, -1, -1);
    ShellTakenOut(m[x], m[k], k);
  }

  /** The statements of an exchange, one after the other, on one row. */
  function SwapStatements(p: Spot, a: Spot, b: Spot, away: int): Spot {
    var p1 := Carry(p, b.lft, b.rght, away, 0);
    var p2 := Carry(p1, a.lft, a.rght, b.rght - b.lft + 1, 0);
    Carry(p2, b.lft + away, b.rght + away, -away - (a.rght - a.lft + 1), 0)
  }

  /** The third statement of an exchange means to bring back the rows of `b` from `away`
      positions further right. It also takes a row of another subtree that stands there
      when it runs. */
  predicate Strayed(p: Spot, a: Spot, b: Spot, away: int) {
    !Spans(b.lft, b.rght, p) && Spans(b.lft + away, b.rght + away, Carry(p, a.lft, a.rght, b.rght - b.lft + 1, 0))
  }

  /** An exchange is right for a row exactly if the row has not strayed. */
  lemma ThreeRangesSwap(p: Spot, a: Spot, b: Spot, away: int)
    requires p.lft < p.rght && a.lft < a.rght && b.lft == a.rght + 1 && b.lft < b.rght
    requires away > 0
    requires Spans(a.lft, a.rght, p) || Untangled(p, a)
    requires Spans(b.lft, b.rght, p) || Untangled(p, b)
    ensures SwapStatements(p, a, b, away) == Swap(a, b).Apply(p) <==> !Strayed(p, a, b, away)
  {}

  ghost function Exchanged(m: map<Key, Spot>, a: Spot, b: Spot): map<Key, Spot> {
    map x | x in m :: SwapStatements(m[x], a, b, TEMP)
  }

  /** The three statements, one map for each. */
  lemma ExchangeComposed(m: map<Key, Spot>, a: Spot, b: Spot)
    ensures Exchanged(m, a, b)
         == Carried(Carried(Carried(m, b.lft, b.rght, TEMP, 0), a.lft, a.rght, b.rght - b.lft + 1, 0),
                    b.lft + TEMP, b.rght + TEMP, -TEMP - (a.rght - a.lft + 1), 0)
  {
    hide Carry;
  }
}
