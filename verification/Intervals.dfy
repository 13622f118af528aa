/** What a gapless nested set is, said of the columns alone: no forest is mentioned until
    the last section, which shows that the tables with this property are exactly the
    numberings of forests. */
module Intervals {
  import opened Wrappers
  import opened Forests
  import opened NestedSets
  import opened TreeTables
  import opened TreeRefinement

  /** The interval of `p` lies strictly in that of `q`. */
  predicate Inside(p: Spot, q: Spot) { q.lft < p.lft && p.rght < q.rght }

  /** The rows whose intervals enclose that of `x`. */
  ghost function Around(m: map<Key, Spot>, x: Key): set<Key>
    requires x in m
  {
    set a | a in m && Inside(m[x], m[a])
  }

  /** The rows whose intervals lie in that of `a`. */
  ghost function Within(m: map<Key, Spot>, a: Key): map<Key, Spot>
    requires a in m
  {
    map x | x in m && Inside(m[x], m[a]) :: m[x]
  }

  ghost function After(m: map<Key, Spot>, a: Key): map<Key, Spot>
    requires a in m
  {
    map x | x in m && m[x].lft > m[a].rght :: m[x]
  }

  ghost predicate Holds(m: map<Key, Spot>, i: int) {
    exists k :: k in m && (m[k].lft == i || m[k].rght == i)
  }

  /** The boundaries are exactly `lo` to `hi - 1`, each held once, and no two intervals cross. */
  ghost predicate Tiles(m: map<Key, Spot>, lo: int, hi: int) {
    && lo <= hi
    && (forall k | k in m :: lo <= m[k].lft < m[k].rght < hi)
    && (forall x, y | x in m && y in m && x != y :: Untangled(m[x], m[y]))
    && (forall i | lo <= i < hi :: Holds(m, i))
  }

  /** The parent of `x` is the row with the smallest enclosing interval, or `par` if there is none;
      its depth counts the enclosing intervals. */
  ghost predicate WellHung(m: map<Key, Spot>, par: Option<Key>, d: int, x: Key)
    requires x in m
  {
    && m[x].depth == d + |Around(m, x)|
    && (Around(m, x) == {} ==> m[x].parent == par)
    && (Around(m, x) != {} ==>
          && m[x].parent.Some? && m[x].parent.value in Around(m, x)
          && forall a | a in Around(m, x) :: a == m[x].parent.value || Inside(m[m[x].parent.value], m[a]))
  }

  ghost predicate Nested(m: map<Key, Spot>, lo: int, hi: int, par: Option<Key>, d: int) {
    Tiles(m, lo, hi) && forall x | x in m :: WellHung(m, par, d, x)
  }

  /** A gapless nested set. */
  ghost predicate Gapless(m: map<Key, Spot>) {
    Nested(m, 1, 2 * |m| + 1, None, 0)
  }

  // ----- what follows from the boundaries

  /** The row that holds the first boundary, the rows in its interval and the rows after it
      make up the whole, and each part is tiled again. */
  lemma SplitsAtFirst(m: map<Key, Spot>, lo: int, hi: int) returns (k: Key)
    requires Tiles(m, lo, hi) && lo < hi
    ensures k in m && m[k].lft == lo
    ensures Tiles(Within(m, k), lo + 1, m[k].rght) && Tiles(After(m, k), m[k].rght + 1, hi)
    ensures |m| == 1 + |Within(m, k)| + |After(m, k)|
    ensures forall x :: x in m <==> x == k || x in Within(m, k) || x in After(m, k)
    ensures forall x :: !(x in Within(m, k) && x in After(m, k)) && k !in Within(m, k) && k !in After(m, k)
    ensures forall x | x in Within(m, k) :: m[x] == Within(m, k)[x]
    ensures forall x | x in After(m, k) :: m[x] == After(m, k)[x]
  {
    assert Holds(m, lo);
    k :| k in m && (m[k].lft == lo || m[k].rght == lo);
    WithinIsTiled(m, lo, hi, k);
    AfterIsTiled(m, lo, hi, k);
    forall x | x in m && x != k
      ensures x in Within(m, k) <==> x !in After(m, k)
    {
      assert Untangled(m[x], m[k]);
    }
    CountParts(m, k, Within(m, k), After(m, k));
  }

  lemma CountParts(m: map<Key, Spot>, k: Key, a: map<Key, Spot>, b: map<Key, Spot>)
    requires k in m && k !in a && k !in b
    requires forall x | x in m && x != k :: x in a <==> x !in b
    requires a.Keys <= m.Keys && b.Keys <= m.Keys
    ensures |m| == 1 + |a| + |b|
  {
    assert m.Keys == {k} + a.Keys + b.Keys;
    assert |m.Keys| == |m| && |a.Keys| == |a| && |b.Keys| == |b|;
  }

  lemma WithinIsTiled(m: map<Key, Spot>, lo: int, hi: int, k: Key)
    requires Tiles(m, lo, hi) && k in m
    ensures Tiles(Within(m, k), m[k].lft + 1, m[k].rght)
  {
    forall i | m[k].lft + 1 <= i < m[k].rght
      ensures Holds(Within(m, k), i)
    {
      assert Holds(m, i);
      var x :| x in m && (m[x].lft == i || m[x].rght == i);
      assert Untangled(m[x], m[k]);
      assert x in Within(m, k);
    }
  }

  lemma AfterIsTiled(m: map<Key, Spot>, lo: int, hi: int, k: Key)
    requires Tiles(m, lo, hi) && k in m && m[k].lft == lo
    ensures Tiles(After(m, k), m[k].rght + 1, hi)
  {
    forall i | m[k].rght + 1 <= i < hi
      ensures Holds(After(m, k), i)
    {
      assert Holds(m, i);
      var x :| x in m && (m[x].lft == i || m[x].rght == i);
      assert Untangled(m[x], m[k]);
      assert x in After(m, k);
    }
  }

  /** There are twice as many boundaries as rows. */
  lemma {:induction false} TwicePerRow(m: map<Key, Spot>, lo: int, hi: int)
    requires Tiles(m, lo, hi)
    ensures hi - lo == 2 * |m|
    decreases hi - lo
  {
    if lo < hi {
      var k := SplitsAtFirst(m, lo, hi);
      TwicePerRow(Within(m, k), lo + 1, m[k].rght);
      TwicePerRow(After(m, k), m[k].rght + 1, hi);
    } else {
      assert m == map[];
    }
  }

  /** (rght - lft - 1) / 2 is the number of strict descendants. */
  lemma ChildCountIsDescendants(m: map<Key, Spot>, a: Key)
    requires Gapless(m) && a in m
    ensures m[a].rght - m[a].lft - 1 == 2 * |Within(m, a)|
    ensures (m[a].rght - m[a].lft - 1) / 2 == |Within(m, a)|
  {
    WithinIsTiled(m, 1, 2 * |m| + 1, a);
    TwicePerRow(Within(m, a), m[a].lft + 1, m[a].rght);
  }

  /** rght - lft == 1 exactly for the rows that are nobody's parent. */
  lemma LeavesAreChildless(m: map<Key, Spot>, a: Key)
    requires Gapless(m) && a in m
    ensures m[a].rght - m[a].lft == 1 <==> forall x | x in m :: m[x].parent != Some(a)
  {
    if m[a].rght - m[a].lft == 1 {
      forall x | x in m
        ensures m[x].parent != Some(a)
      {
        assert WellHung(m, None, 0, x);
      }
    } else {
      assert Holds(m, m[a].lft + 1);
      var x :| x in m && (m[x].lft == m[a].lft + 1 || m[x].rght == m[a].lft + 1);
      assert Untangled(m[x], m[a]);
      assert WellHung(m, None, 0, x) && a in Around(m, x);
      assert m[x].parent == Some(a);
    }
  }

  // ----- parents and intervals

  /** A walk from row to parent, one step at least. */
  ghost predicate Climb(m: map<Key, Spot>, path: seq<Key>) {
    && |path| >= 2
    && (forall i | 0 <= i < |path| :: path[i] in m)
    && (forall i | 0 <= i < |path| - 1 :: m[path[i]].parent == Some(path[i + 1]))
  }

  /** `a` is reached from `x` by following parent columns. */
  ghost predicate Ancestor(m: map<Key, Spot>, a: Key, x: Key) {
    exists path :: Climb(m, path) && path[0] == x && path[|path| - 1] == a
  }

  /** The interval test selects exactly the transitive closure of the parent column. */
  lemma AncestorsAreAround(m: map<Key, Spot>, a: Key, x: Key)
    requires Gapless(m) && a in m && x in m
    ensures Inside(m[x], m[a]) <==> Ancestor(m, a, x)
  {
    if Inside(m[x], m[a]) {
      ClimbTo(m, a, x);
    }
    if Ancestor(m, a, x) {
      var path :| Climb(m, path) && path[0] == x && path[|path| - 1] == a;
      ClimbGoesOut(m, path);
    }
  }

  lemma OneStepUp(m: map<Key, Spot>, a: Key, x: Key)
    requires Gapless(m) && a in m && x in m && Inside(m[x], m[a])
    ensures m[x].parent.Some? && m[x].parent.value in m
    ensures 1 <= m[m[x].parent.value].lft < m[x].lft
    ensures a == m[x].parent.value || Inside(m[m[x].parent.value], m[a])
  {
    assert WellHung(m, None, 0, x) && a in Around(m, x);
  }

  lemma {:induction false} ClimbTo(m: map<Key, Spot>, a: Key, x: Key)
    requires Gapless(m) && a in m && x in m && Inside(m[x], m[a])
    ensures Ancestor(m, a, x)
    decreases m[x].lft
  {
    hide Nested;
    OneStepUp(m, a, x);
    var p := m[x].parent.value;
    if p == a {
      assert Climb(m, [x, a]);
    } else {
      ClimbTo(m, a, p);
      var path :| Climb(m, path) && path[0] == p && path[|path| - 1] == a;
      StartLower(m, x, path);
    }
  }

  lemma StartLower(m: map<Key, Spot>, x: Key, path: seq<Key>)
    requires Climb(m, path) && x in m && m[x].parent == Some(path[0])
    ensures Ancestor(m, path[|path| - 1], x)
  {
    var longer := [x] + path;
    assert longer[|longer| - 1] == path[|path| - 1];
    assert Climb(m, longer);
  }

  lemma {:induction false} ClimbGoesOut(m: map<Key, Spot>, path: seq<Key>)
    requires Gapless(m) && Climb(m, path)
    ensures Inside(m[path[0]], m[path[|path| - 1]])
  {
    hide Holds;
    assert WellHung(m, None, 0, path[0]);
    assert path[1] in Around(m, path[0]);
    if |path| > 2 {
      assert Climb(m, path[1..]);
      ClimbGoesOut(m, path[1..]);
    }
  }

  // ----- forests

  /** Every row of a numbering hangs under the row with the smallest enclosing interval. */
  lemma {:induction false} ParentIsSmallest(f: Forest, start: int, par: Option<Key>, d: int, x: Key)
    requires Distinct(f) && Has(f, x) && (par.Some? ==> !Has(f, par.value))
    ensures var at := Place(f, start, par, d, x);
            if at.parent == par then
              at.depth == d && forall a | Has(f, a) :: !Inside(at, Place(f, start, par, d, a))
            else
              && at.parent.Some? && Has(f, at.parent.value)
              && Inside(at, Place(f, start, par, d, at.parent.value))
              && at.depth == Place(f, start, par, d, at.parent.value).depth + 1
              && forall a | Has(f, a) && Inside(at, Place(f, start, par, d, a)) ::
                   a == at.parent.value || Inside(Place(f, start, par, d, at.parent.value), Place(f, start, par, d, a))
  {
    var Node(key, kids, next) := f;
    var base := start + 2 * Size(kids) + 2;
    var at := Place(f, start, par, d, x);
    if Has(kids, x) { Span(kids, start + 1, Some(key), d + 1, x); }
    if Has(next, x) { Span(next, base, par, d, x); }
    forall a | Has(kids, a)
      ensures var at := Place(kids, start + 1, Some(key), d + 1, a); start + 1 <= at.lft < at.rght < base - 1
    {
      Span(kids, start + 1, Some(key), d + 1, a);
    }
    forall a | Has(next, a)
      ensures base <= Place(next, base, par, d, a).lft < Place(next, base, par, d, a).rght
    {
      Span(next, base, par, d, a);
    }
    if Has(kids, x) {
      ParentIsSmallest(kids, start + 1, Some(key), d + 1, x);
    } else if Has(next, x) {
      ParentIsSmallest(next, base, par, d, x);
    }
  }

  lemma SpotsTile(f: Forest)
    requires Distinct(f)
    ensures Tiles(Spots(f), 1, 2 * Size(f) + 1)
  {
    SpotsHas(f);
    forall k | k in Spots(f)
      ensures 1 <= At(f, k).lft < At(f, k).rght < 2 * Size(f) + 1
    {
      Span(f, 1, None, 0, k);
    }
    forall x, y | x in Spots(f) && y in Spots(f) && x != y
      ensures Untangled(At(f, x), At(f, y))
    {
      NeverCross(f, 1, None, 0, x, y);
    }
    forall i | 1 <= i < 2 * Size(f) + 1
      ensures Holds(Spots(f), i)
    {
      var k := EveryBoundaryHeld(f, 1, None, 0, i);
      assert k in Spots(f) && Spots(f)[k] == At(f, k);
    }
  }

  lemma {:induction false} SpotsWellHung(f: Forest, x: Key)
    requires Distinct(f) && x in Spots(f)
    ensures WellHung(Spots(f), None, 0, x)
    decreases At(f, x).lft
  {
    var m := Spots(f);
    SpotsHas(f);
    SpotsTile(f);
    ParentIsSmallest(f, 1, None, 0, x);
    hide Place, Tiles;
    if m[x].parent == None {
      assert Around(m, x) == {};
    } else {
      var p := m[x].parent.value;
      assert p in m && m[p] == At(f, p);
      SpotsWellHung(f, p);
      OneMoreAround(m, x, p);
    }
  }

  /** Around a row there is its parent, and what is around that. */
  lemma OneMoreAround(m: map<Key, Spot>, x: Key, p: Key)
    requires x in m && p in m && Inside(m[x], m[p])
    requires forall a | a in m && Inside(m[x], m[a]) :: a == p || Inside(m[p], m[a])
    ensures p !in Around(m, p) && Around(m, x) == {p} + Around(m, p) && |Around(m, x)| == 1 + |Around(m, p)|
  {
    assert Around(m, x) == {p} + Around(m, p);
  }

  /** The rows that hold a forest are a gapless nested set. */
  lemma SpotsAreGapless(f: Forest)
    requires Distinct(f)
    ensures Gapless(Spots(f)) && |Spots(f)| == Size(f)
  {
    SpotsTile(f);
    TwicePerRow(Spots(f), 1, 2 * Size(f) + 1);
    forall x | x in Spots(f)
      ensures WellHung(Spots(f), None, 0, x)
    {
      SpotsWellHung(f, x);
    }
  }

  /** `m` is the numbering of `f` from `lo`, under `par`, at depth `d`. */
  ghost predicate Numbers(f: Forest, m: map<Key, Spot>, lo: int, par: Option<Key>, d: int) {
    && Distinct(f)
    && (forall k :: k in m <==> Has(f, k))
    && (forall k | k in m :: m[k] == Place(f, lo, par, d, k))
  }

  /** A gapless nested set is the numbering of a forest. */
  lemma GaplessIsForest(m: map<Key, Spot>) returns (f: Forest)
    requires Gapless(m)
    ensures Distinct(f) && Spots(f) == m
  {
    f := ForestOf(m, 1, 2 * |m| + 1, None, 0);
    SpotsAre(f, m);
  }

  lemma {:induction false} ForestOf(m: map<Key, Spot>, lo: int, hi: int, par: Option<Key>, d: int) returns (f: Forest)
    requires Nested(m, lo, hi, par, d)
    ensures Numbers(f, m, lo, par, d) && 2 * Size(f) == hi - lo
    decreases hi - lo
  {
    hide Tiles, WellHung, Holds, Within, After;
    TwicePerRow(m, lo, hi);
    if lo == hi {
      f := Nil;
    } else {
      var k := SplitsAtFirst(m, lo, hi);
      FirstIsTop(m, lo, hi, par, d, k);
      NestedWithin(m, lo, hi, par, d, k);
      NestedAfter(m, lo, hi, par, d, k);
      var kids := ForestOf(Within(m, k), lo + 1, m[k].rght, Some(k), d + 1);
      var next := ForestOf(After(m, k), m[k].rght + 1, hi, par, d);
      f := Node(k, kids, next);
      PartsMakeForest(m, Within(m, k), After(m, k), k, kids, next, lo, par, d);
    }
  }

  lemma PartsMakeForest(m: map<Key, Spot>, m1: map<Key, Spot>, m2: map<Key, Spot>, k: Key, kids: Forest, next: Forest,
                        lo: int, par: Option<Key>, d: int)
    requires forall x :: x in m <==> x == k || x in m1 || x in m2
    requires forall x :: !(x in m1 && x in m2) && k !in m1 && k !in m2
    requires forall x | x in m1 :: m[x] == m1[x]
    requires forall x | x in m2 :: m[x] == m2[x]
    requires m[k] == Spot(lo, lo + 2 * Size(kids) + 1, par, d)
    requires Numbers(kids, m1, lo + 1, Some(k), d + 1)
    requires Numbers(next, m2, lo + 2 * Size(kids) + 2, par, d)
    ensures Numbers(Node(k, kids, next), m, lo, par, d)
  {}

  lemma FirstIsTop(m: map<Key, Spot>, lo: int, hi: int, par: Option<Key>, d: int, k: Key)
    requires Nested(m, lo, hi, par, d) && k in m && m[k].lft == lo
    ensures m[k] == Spot(lo, m[k].rght, par, d)
  {
    assert WellHung(m, par, d, k);
    assert Around(m, k) == {};
  }

  lemma NestedWithin(m: map<Key, Spot>, lo: int, hi: int, par: Option<Key>, d: int, k: Key)
    requires Nested(m, lo, hi, par, d) && k in m && m[k].lft == lo
    ensures Nested(Within(m, k), lo + 1, m[k].rght, Some(k), d + 1)
  {
    WithinIsTiled(m, lo, hi, k);
    forall x | x in Within(m, k)
      ensures WellHung(Within(m, k), Some(k), d + 1, x)
    {
      HungWithin(m, lo, hi, par, d, k, x);
    }
  }

  lemma AroundFirst(m: map<Key, Spot>, lo: int, hi: int, k: Key, x: Key)
    requires Tiles(m, lo, hi) && k in m && m[k].lft == lo && x in Within(m, k)
    ensures k in Around(m, x) && Around(m, x) == Around(Within(m, k), x) + {k}
  {
    forall a | a in Around(m, x) && a != k
      ensures a in Within(m, k)
    {
      assert Untangled(m[a], m[k]);
    }
  }

  lemma HungWithin(m: map<Key, Spot>, lo: int, hi: int, par: Option<Key>, d: int, k: Key, x: Key)
    requires Nested(m, lo, hi, par, d) && k in m && m[k].lft == lo && x in Within(m, k)
    ensures WellHung(Within(m, k), Some(k), d + 1, x)
  {
    hide Tiles, Around, Within;
    WithinAgrees(m, lo, hi, k, x);
    assert WellHung(m, par, d, x);
    HungStep(m, Within(m, k), Around(m, x), Around(Within(m, k), x), par, d, k, x);
  }

  /** The rows within `k` are rows of the table, all in the interval of `k`; one of them has `k` around it as well. */
  lemma WithinAgrees(m: map<Key, Spot>, lo: int, hi: int, k: Key, x: Key)
    requires Tiles(m, lo, hi) && k in m && m[k].lft == lo && x in Within(m, k)
    ensures x in m && Within(m, k)[x] == m[x] && k !in Around(Within(m, k), x)
    ensures forall a :: a in Around(m, x) <==> a == k || a in Around(Within(m, k), x)
    ensures |Around(m, x)| == |Around(Within(m, k), x)| + 1
    ensures forall a | a in Around(Within(m, k), x) ::
              a in m && a in Within(m, k) && Within(m, k)[a] == m[a] && Inside(m[a], m[k])
  {
    AroundFirst(m, lo, hi, k, x);
    hide Tiles;
    OneAround(Around(Within(m, k), x), k);
  }

  lemma OneAround(around: set<Key>, k: Key)
    requires k !in around
    ensures |around + {k}| == |around| + 1
  {}

  /** Without the outermost row around it, a row hangs where it hung. */
  lemma HungStep(m: map<Key, Spot>, m': map<Key, Spot>, around: set<Key>, around': set<Key>,
                 par: Option<Key>, d: int, k: Key, x: Key)
    requires x in m && x in m' && m'[x] == m[x] && k in m && k !in around'
    requires (forall a :: a in around <==> a == k || a in around') && |around| == |around'| + 1
    requires forall a | a in around' :: a in m && a in m' && m'[a] == m[a] && Inside(m[a], m[k])
    requires m[x].depth == d + |around| && m[x].parent.Some? && m[x].parent.value in around
    requires forall a | a in around :: a == m[x].parent.value || Inside(m[m[x].parent.value], m[a])
    ensures m'[x].depth == d + 1 + |around'|
    ensures around' == {} ==> m'[x].parent == Some(k)
    ensures around' != {} ==>
              && m'[x].parent.value in around'
              && forall a | a in around' :: a == m'[x].parent.value || Inside(m'[m'[x].parent.value], m'[a])
  {
    if around' != {} {
      var a :| a in around';
      assert m[x].parent.value != k;
    }
  }

  lemma NestedAfter(m: map<Key, Spot>, lo: int, hi: int, par: Option<Key>, d: int, k: Key)
    requires Nested(m, lo, hi, par, d) && k in m && m[k].lft == lo
    ensures Nested(After(m, k), m[k].rght + 1, hi, par, d)
  {
    AfterIsTiled(m, lo, hi, k);
    forall x | x in After(m, k)
      ensures WellHung(After(m, k), par, d, x)
    {
      assert WellHung(m, par, d, x);
      forall a | a in Around(m, x)
        ensures a in After(m, k)
      {
        if a != k { assert Untangled(m[a], m[k]); }
      }
      assert Around(m, x) == Around(After(m, k), x);
    }
  }

  /** The numbering determines the forest. */
  lemma {:induction false} SpotsDetermine(f: Forest, g: Forest, start: int, par: Option<Key>, d: int)
    requires Distinct(f) && Distinct(g)
    requires forall k :: Has(f, k) <==> Has(g, k)
    requires forall k | Has(f, k) :: Place(f, start, par, d, k).lft == Place(g, start, par, d, k).lft
    requires forall k | Has(f, k) :: Place(f, start, par, d, k).rght == Place(g, start, par, d, k).rght
    ensures f == g
  {
    match f
    case Nil =>
      if g.Node? { assert Has(g, g.key); }
    case Node(key, kids, next) =>
      assert Has(g, key);
      assert Place(f, start, par, d, key).lft == start;
      KidsAreInside(g, start, par, d, key);
      assert g.key == key;
      assert Place(f, start, par, d, key).rght == Place(g, start, par, d, key).rght;
      forall k
        ensures Has(kids, k) <==> Has(g.kids, k)
        ensures Has(next, k) <==> Has(g.next, k)
      {
        if Has(f, k) {
          KidsAreInside(f, start, par, d, k);
          KidsAreInside(g, start, par, d, k);
        }
      }
      var base := start + 2 * Size(kids) + 2;
      assert forall k | Has(kids, k) :: Place(f, start, par, d, k) == Place(kids, start + 1, Some(key), d + 1, k);
      assert forall k | Has(g.kids, k) :: Place(g, start, par, d, k) == Place(g.kids, start + 1, Some(key), d + 1, k);
      assert forall k | Has(next, k) :: Place(f, start, par, d, k) == Place(next, base, par, d, k);
      assert forall k | Has(g.next, k) :: Place(g, start, par, d, k) == Place(g.next, base, par, d, k);
      SpotsDetermine(kids, g.kids, start + 1, Some(key), d + 1);
      SpotsDetermine(next, g.next, base, par, d);
  }

  lemma KidsAreInside(f: Forest, start: int, par: Option<Key>, d: int, k: Key)
    requires Distinct(f) && Has(f, k)
    ensures start <= Place(f, start, par, d, k).lft
    ensures k == f.key <==> Place(f, start, par, d, k).lft == start
    ensures Has(f.kids, k) <==> start < Place(f, start, par, d, k).lft < start + 2 * Size(f.kids) + 1
    ensures Has(f.next, k) <==> start + 2 * Size(f.kids) + 1 < Place(f, start, par, d, k).lft
  {
    var Node(key, kids, next) := f;
    if Has(kids, k) {
      Span(kids, start + 1, Some(key), d + 1, k);
    } else if Has(next, k) {
      Span(next, start + 2 * Size(kids) + 2, par, d, k);
    }
  }

  /** One table holds one forest. */
  lemma ForestIsUnique(t: Table, s: Scope, f: Forest, g: Forest)
    requires Represents(t, s, f) && Represents(t, s, g)
    ensures f == g
  {
    SpotsHas(f);
    SpotsHas(g);
    assert forall k | Has(f, k) :: Spots(f)[k] == At(f, k) && Spots(g)[k] == At(g, k);
    SpotsDetermine(f, g, 1, None, 0);
  }
}
