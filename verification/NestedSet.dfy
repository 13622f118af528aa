/** The nested-set numbering of an ordered forest, and what it means for a table to hold one. */
module NestedSets {
  import opened Wrappers
  import opened Forests

  /** The four columns that place a row in its tree. */
  datatype Spot = Spot(lft: int, rght: int, parent: Option<Key>, depth: int)

  /** A row as a query returned it, without its other columns. */
  datatype NodeResult = NodeResult(key: Key, spot: Spot)

  /** One tree row. `columns` holds every other column, the scope columns among them. */
  datatype Row = Row(spot: Spot, columns: map<string, int>)

  /** The table, by primary key. */
  type Table = map<Key, Row>

  /** Column values that a row must carry to be seen by a tree manager. */
  type Scope = map<string, int>

  predicate InScope(s: Scope, columns: map<string, int>) {
    forall c | c in s :: c in columns && columns[c] == s[c]
  }

  /** The places of the rows in scope: all that a tree manager sees. */
  function Places(t: Table, s: Scope): map<Key, Spot> {
    map k | k in t && InScope(s, t[k].columns) :: t[k].spot
  }

  /** The rows that it does not see. */
  function Others(t: Table, s: Scope): Table {
    map k | k in t && !InScope(s, t[k].columns) :: t[k]
  }

  /** The other columns of the rows in scope. */
  function Contents(t: Table, s: Scope): map<Key, map<string, int>> {
    map k | k in t && InScope(s, t[k].columns) :: t[k].columns
  }

  /** The place of `k` when `f` is numbered left to right from `start`, under `par`, at depth `d`. */
  ghost function Place(f: Forest, start: int, par: Option<Key>, d: int, k: Key): Spot {
    match f
    case Nil => Spot(0, 0, None, 0)
    case Node(key, kids, next) =>
      if k == key then Spot(start, start + 2 * Size(kids) + 1, par, d)
      else if Has(kids, k) then Place(kids, start + 1, Some(key), d + 1, k)
      else Place(next, start + 2 * Size(kids) + 2, par, d, k)
  }

  /** The place of `k` in a whole tree table. */
  ghost function At(f: Forest, k: Key): Spot { Place(f, 1, None, 0, k) }

  /** All the places of a whole tree table. */
  ghost function Spots(f: Forest): map<Key, Spot> { map k | k in PreOrder(f) :: At(f, k) }

  /** The rows in scope are exactly the gapless numbering of `f`. */
  ghost predicate Represents(t: Table, s: Scope, f: Forest) {
    Distinct(f) && Places(t, s) == Spots(f)
  }

  lemma SpotsHas(f: Forest)
    ensures forall k :: k in Spots(f) <==> Has(f, k)
  {
    forall k
      ensures k in Spots(f) <==> Has(f, k)
    {
      PreOrderHas(f, k);
    }
  }

  lemma SpotsAre(f: Forest, m: map<Key, Spot>)
    requires forall k :: k in m <==> Has(f, k)
    requires forall k | Has(f, k) :: m[k] == At(f, k)
    ensures Spots(f) == m
  {
    SpotsHas(f);
    assert Spots(f).Keys == m.Keys;
  }

  // ----- reading a numbering

  lemma {:induction false} Span(f: Forest, start: int, par: Option<Key>, d: int, k: Key)
    requires Has(f, k)
    ensures var p := Place(f, start, par, d, k);
            && start <= p.lft < p.rght < start + 2 * Size(f)
            && d <= p.depth
            && (p.parent == par || (p.parent.Some? && Has(f, p.parent.value)))
  {
    var Node(key, kids, next) := f;
    if k == key {
    } else if Has(kids, k) {
      Span(kids, start + 1, Some(key), d + 1, k);
    } else {
      Span(next, start + 2 * Size(kids) + 2, par, d, k);
    }
  }

  /** Numbering elsewhere moves every place by the same amount; only top-level rows see the new parent. */
  lemma {:induction false} Rebase(f: Forest, start: int, par: Option<Key>, d: int,
                                  start': int, par': Option<Key>, d': int, k: Key)
    requires Distinct(f) && Has(f, k)
    requires par != par' && par.Some? ==> !Has(f, par.value)
    ensures var p, p' := Place(f, start, par, d, k), Place(f, start', par', d', k);
            && p'.lft - p.lft == p'.rght - p.rght == start' - start
            && p'.depth - p.depth == d' - d
            && p'.parent == (if p.parent == par then par' else p.parent)
  {
    var Node(key, kids, next) := f;
    if k == key {
    } else if Has(kids, k) {
      Span(kids, start + 1, Some(key), d + 1, k);
      Rebase(kids, start + 1, Some(key), d + 1, start' + 1, Some(key), d' + 1, k);
    } else {
      Rebase(next, start + 2 * Size(kids) + 2, par, d, start' + 2 * Size(kids) + 2, par', d', k);
    }
  }

  lemma {:induction false} PlaceInAppend(f: Forest, g: Forest, start: int, par: Option<Key>, d: int, k: Key)
    requires Has(f, k) || Has(g, k)
    ensures Place(Append(f, g), start, par, d, k)
         == if Has(f, k) then Place(f, start, par, d, k) else Place(g, start + 2 * Size(f), par, d, k)
  {
    match f
    case Nil =>
    case Node(key, kids, next) =>
      if k != key && !Has(kids, k) {
        PlaceInAppend(next, g, start + 2 * Size(kids) + 2, par, d, k);
      }
  }

  /** A subtree is numbered within the whole as it would be alone, from its root's own place. */
  lemma {:induction false} PlaceInSubtree(f: Forest, start: int, par: Option<Key>, d: int, k: Key, x: Key)
    requires Distinct(f)
    requires Has(f, k) && Has(Subtree(f, k), x)
    ensures var p := Place(f, start, par, d, k);
            && p.rght == p.lft + 2 * Size(Subtree(f, k)) - 1
            && Place(f, start, par, d, x) == Place(Subtree(f, k), p.lft, p.parent, p.depth, x)
  {
    var Node(key, kids, next) := f;
    if k == key {
      var alone := Node(key, kids, Nil);
      assert Size(alone) == 1 + Size(kids) && (Has(alone, x) <==> x == key || Has(kids, x));
      assert Place(alone, start, par, d, x)
          == if x == key then Spot(start, start + 2 * Size(kids) + 1, par, d)
             else Place(kids, start + 1, Some(key), d + 1, x);
    } else if Has(kids, k) {
      SubtreeHas(kids, k, x);
      PlaceInSubtree(kids, start + 1, Some(key), d + 1, k, x);
    } else {
      SubtreeHas(next, k, x);
      PlaceInSubtree(next, start + 2 * Size(kids) + 2, par, d, k, x);
    }
  }
}
