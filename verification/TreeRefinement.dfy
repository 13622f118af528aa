/** Where the rows of a whole tree table stand after each operation on its forest. */
module TreeRefinement {
  import opened Wrappers
  import opened Forests
  import opened NestedSets
  import opened NestedSetSurgery
  import opened TreeTables

  // ----- places in a whole table

  lemma SpotsPositive(f: Forest)
    ensures Positive(Spots(f))
    ensures forall k | k in Spots(f) :: Spots(f)[k].rght <= 2 * Size(f)
  {
    forall k | k in Spots(f)
      ensures 1 <= At(f, k).lft < At(f, k).rght <= 2 * Size(f)
    {
      SpotsHas(f);
      Span(f, 1, None, 0, k);
    }
  }

  /** The interval test selects exactly a subtree. */
  lemma {:induction false} SubtreeSpan(f: Forest, start: int, par: Option<Key>, d: int, k: Key, x: Key)
    requires Distinct(f) && Has(f, k) && Has(f, x)
    ensures Has(Subtree(f, k), x)
       <==> Spans(Place(f, start, par, d, k).lft, Place(f, start, par, d, k).rght, Place(f, start, par, d, x))
  {
    var Node(key, kids, next) := f;
    var base := start + 2 * Size(kids) + 2;
    if Has(kids, k) { Span(kids, start + 1, Some(key), d + 1, k); }
    if Has(kids, x) { Span(kids, start + 1, Some(key), d + 1, x); }
    if Has(next, k) { Span(next, base, par, d, k); }
    if Has(next, x) { Span(next, base, par, d, x); }
    if k == key {
      assert Has(Node(key, kids, Nil), x) <==> x == key || Has(kids, x);
    } else if Has(kids, k) {
      if Has(kids, x) {
        SubtreeSpan(kids, start + 1, Some(key), d + 1, k, x);
      } else if Has(Subtree(kids, k), x) {
        SubtreeHas(kids, k, x);
      }
    } else {
      if Has(next, x) {
        SubtreeSpan(next, base, par, d, k, x);
      } else if Has(Subtree(next, k), x) {
        SubtreeHas(next, k, x);
      }
    }
  }

  /** Every boundary position in the span of a forest is held by one of its rows. */
  lemma {:induction false} EveryBoundaryHeld(f: Forest, start: int, par: Option<Key>, d: int, i: int) returns (k: Key)
    requires Distinct(f) && start <= i < start + 2 * Size(f)
    ensures Has(f, k) && (Place(f, start, par, d, k).lft == i || Place(f, start, par, d, k).rght == i)
  {
    var Node(key, kids, next) := f;
    var base := start + 2 * Size(kids) + 2;
    if i == start || i == base - 1 {
      k := key;
    } else if i < base {
      k := EveryBoundaryHeld(kids, start + 1, Some(key), d + 1, i);
    } else {
      k := EveryBoundaryHeld(next, base, par, d, i);
    }
  }

  /** SELECT MAX(rght) returns the number of boundaries. */
  lemma MaxIsLast(f: Forest, r: int)
    requires Distinct(f) && IsMaxRght(Spots(f), r)
    ensures r == 2 * Size(f)
  {
    SpotsPositive(f);
    SpotsHas(f);
    if f.Node? {
      var k := EveryBoundaryHeld(f, 1, None, 0, 2 * Size(f));
      assert k in Spots(f);
    }
  }

  /** A gap past the last boundary moves no row. */
  lemma NothingToOpen(f: Forest, width: int)
    ensures Edited(Spots(f), Open(2 * Size(f) + 1, width)) == Spots(f)
  {
    SpotsPositive(f);
  }

  /** Two spans of one numbering never cross. */
  lemma {:induction false} NeverCross(f: Forest, start: int, par: Option<Key>, d: int, x: Key, y: Key)
    requires Distinct(f) && Has(f, x) && Has(f, y) && x != y
    ensures Untangled(Place(f, start, par, d, x), Place(f, start, par, d, y))
  {
    var Node(key, kids, next) := f;
    var base := start + 2 * Size(kids) + 2;
    if Has(kids, x) { Span(kids, start + 1, Some(key), d + 1, x); }
    if Has(kids, y) { Span(kids, start + 1, Some(key), d + 1, y); }
    if Has(next, x) { Span(next, base, par, d, x); }
    if Has(next, y) { Span(next, base, par, d, y); }
    if Has(kids, x) && Has(kids, y) {
      NeverCross(kids, start + 1, Some(key), d + 1, x, y);
    } else if Has(next, x) && Has(next, y) {
      NeverCross(next, base, par, d, x, y);
    }
  }

  // ----- deleting

  /** Nobody crosses the interval of `k`. */
  lemma NobodyCrosses(f: Forest, k: Key)
    requires Distinct(f) && Has(f, k)
    ensures k in Spots(f) && forall x | x in Spots(f) :: x == k || Untangled(Spots(f)[x], Spots(f)[k])
  {
    hide Place, Distinct;
    SpotsHas(f);
    forall x | x in Spots(f) && x != k
      ensures Untangled(Spots(f)[x], Spots(f)[k])
    {
      NeverCross(f, 1, None, 0, x, k);
    }
  }

  lemma CutAt(f: Forest, k: Key, x: Key)
    requires Distinct(f) && Has(f, k) && Has(f, x) && !Has(Subtree(f, k), x)
    ensures At(Cut.On(f, k), x) == Close(At(f, k).rght, At(f, k).rght - At(f, k).lft + 1).Apply(At(f, x))
  {
    SurgeryRenumbers(Cut, f, k, 1, None, 0, x);
    assert EditOf(Cut, f, k, 1, None, 0) == Close(At(f, k).rght, At(f, k).rght - At(f, k).lft + 1);
  }

  lemma SpotsAfterCut(f: Forest, k: Key)
    requires Distinct(f) && Has(f, k)
    ensures Spots(Cut.On(f, k))
         == Edited(Outside(Spots(f), At(f, k).lft, At(f, k).rght),
                   Close(At(f, k).rght, At(f, k).rght - At(f, k).lft + 1))
  {
    hide Place, PreOrder, Distinct, Edit.Apply, Subtree;
    SpotsHas(f);
    SpotsHas(Cut.On(f, k));
    forall x
      ensures x in Spots(Cut.On(f, k)) <==> x in Spots(f) && !Spans(At(f, k).lft, At(f, k).rght, At(f, x))
      ensures x in Spots(Cut.On(f, k)) ==>
                At(Cut.On(f, k), x) == Close(At(f, k).rght, At(f, k).rght - At(f, k).lft + 1).Apply(At(f, x))
    {
      SurgeryHas(Cut, f, k, x);
      if Has(f, x) {
        SubtreeSpan(f, 1, None, 0, k, x);
        if !Has(Subtree(f, k), x) { CutAt(f, k, x); }
      }
    }
  }

  lemma CutFacts(f: Forest, k: Key)
    requires Distinct(f) && k in Spots(f)
    ensures Has(f, k) && Distinct(Cut.On(f, k))
    ensures At(f, k).rght - At(f, k).lft + 1 == 2 * Size(Subtree(f, k))
    ensures Spots(Cut.On(f, k))
         == Edited(Outside(Spots(f), At(f, k).lft, At(f, k).rght),
                   Close(At(f, k).rght, At(f, k).rght - At(f, k).lft + 1))
  {
    SpotsHas(f);
    SubtreeShape(f, k);
    PlaceInSubtree(f, 1, None, 0, k, k);
    SurgeryShape(Cut, f, k);
    SpotsAfterCut(f, k);
  }

  // ----- exchanging neighbours

  lemma SpotsAfterSwap(f: Forest, k: Key, k2: Key)
    requires Distinct(f) && NextSibling(f, k) == Some(k2)
    ensures Spots(SwapWithNext.On(f, k)) == Edited(Spots(f), Swap(At(f, k), At(f, k2)))
  {
    NeighboursTouch(f, k, 1, None, 0);
    SpotsHas(f);
    SpotsHas(SwapWithNext.On(f, k));
    assert EditOf(SwapWithNext, f, k, 1, None, 0) == Swap(At(f, k), At(f, k2));
    forall x
      ensures Has(SwapWithNext.On(f, k), x) <==> Has(f, x)
      ensures Has(f, x) ==> At(SwapWithNext.On(f, k), x) == Swap(At(f, k), At(f, k2)).Apply(At(f, x))
    {
      SurgeryHas(SwapWithNext, f, k, x);
      if Has(f, x) { SurgeryRenumbers(SwapWithNext, f, k, 1, None, 0, x); }
    }
  }

  /** Rows with one parent, with no other child of that parent between them, are neighbours. */
  lemma {:induction false} ConsecutiveAreNeighbours(f: Forest, start: int, par: Option<Key>, d: int, a: Key, b: Key)
    requires Distinct(f) && Has(f, a) && Has(f, b) && (par.Some? ==> !Has(f, par.value))
    requires Place(f, start, par, d, a).parent == Place(f, start, par, d, b).parent
    requires Place(f, start, par, d, a).lft < Place(f, start, par, d, b).lft
    requires forall c | Has(f, c) && Place(f, start, par, d, c).parent == Place(f, start, par, d, a).parent ::
               || Place(f, start, par, d, c).lft <= Place(f, start, par, d, a).lft
               || Place(f, start, par, d, b).lft <= Place(f, start, par, d, c).lft
    ensures NextSibling(f, a) == Some(b)
  {
    var Node(key, kids, next) := f;
    var base := start + 2 * Size(kids) + 2;
    if Has(kids, a) { Span(kids, start + 1, Some(key), d + 1, a); }
    if Has(kids, b) { Span(kids, start + 1, Some(key), d + 1, b); }
    if Has(next, a) { Span(next, base, par, d, a); }
    if Has(next, b) { Span(next, base, par, d, b); }
    if a == key {
      assert Has(next, b) && Has(f, next.key);
      assert Place(f, start, par, d, next.key) == Place(next, base, par, d, next.key);
      if b != next.key { NeverCross(next, base, par, d, b, next.key); }
    } else if Has(kids, a) {
      assert Has(kids, b);
      assert forall c | Has(kids, c) :: Place(f, start, par, d, c) == Place(kids, start + 1, Some(key), d + 1, c);
      ConsecutiveAreNeighbours(kids, start + 1, Some(key), d + 1, a, b);
    } else {
      assert Has(next, b);
      assert forall c | Has(next, c) :: Place(f, start, par, d, c) == Place(next, base, par, d, c);
      ConsecutiveAreNeighbours(next, base, par, d, a, b);
    }
  }

  /** No row strays when the exchange of `a` and `b` runs. */
  ghost predicate NoneStrays(m: map<Key, Spot>, a: Spot, b: Spot) {
    forall x | x in m :: !Strayed(m[x], a, b, TEMP)
  }

  /** The statements of an exchange exchange two neighbouring subtrees, and change no other row,
      exactly if no row strays. */
  lemma ExchangeExact(f: Forest, k: Key, k2: Key)
    requires Distinct(f) && NextSibling(f, k) == Some(k2)
    ensures Exchanged(Spots(f), At(f, k), At(f, k2)) == Spots(SwapWithNext.On(f, k))
       <==> NoneStrays(Spots(f), At(f, k), At(f, k2))
  {
    var m, a, b := Spots(f), At(f, k), At(f, k2);
    NeighboursTouch(f, k, 1, None, 0);
    SpotsAfterSwap(f, k, k2);
    forall x | x in m
      ensures SwapStatements(m[x], a, b, TEMP) == Swap(a, b).Apply(m[x]) <==> !Strayed(m[x], a, b, TEMP)
    {
      SpotsHas(f);
      Span(f, 1, None, 0, x);
      if x != k { NeverCross(f, 1, None, 0, x, k); }
      if x != k2 { NeverCross(f, 1, None, 0, x, k2); }
      ThreeRangesSwap(m[x], a, b, TEMP);
    }
    hide Strayed, SwapStatements, Edit.Apply;
    var now, wanted := Exchanged(m, a, b), Edited(m, Swap(a, b));
    if x :| x in m && Strayed(m[x], a, b, TEMP) {
      assert now[x] != wanted[x];
    } else {
      assert now == wanted;
    }
  }

  /** A table that ends before the place where the second subtree is put aside has no strays. */
  lemma SmallTablesAreSafe(f: Forest, k: Key, k2: Key)
    requires Distinct(f) && NextSibling(f, k) == Some(k2)
    requires 2 * Size(f) <= At(f, k2).lft + TEMP
    ensures NoneStrays(Spots(f), At(f, k), At(f, k2))
  {
    NeighboursTouch(f, k, 1, None, 0);
    SpotsPositive(f);
  }

  /** Leaves with the keys `i` to `n` as roots. */
  function Roots(i: int, n: int): Forest
    decreases n - i
  {
    if i > n then Nil else Node(Key(i), Nil, Roots(i + 1, n))
  }

  lemma {:induction false} RootsPlaced(i: int, n: int, start: int, j: int)
    requires i <= n + 1
    ensures Distinct(Roots(i, n)) && Size(Roots(i, n)) == n + 1 - i
    ensures forall x :: Has(Roots(i, n), x) <==> i <= x.id <= n
    ensures i <= j <= n ==>
              Place(Roots(i, n), start, None, 0, Key(j))
              == Spot(start + 2 * (j - i), start + 2 * (j - i) + 1, None, 0)
    decreases n - i
  {
    if i <= n { RootsPlaced(i + 1, n, start + 2, j); }
  }

  /** With 5000002 roots or more, exchanging the first two takes root 5000002 along. */
  lemma LargeTablesAreNot(n: int)
    requires n >= 5000002
    ensures Distinct(Roots(1, n)) && NextSibling(Roots(1, n), Key(1)) == Some(Key(2))
    ensures !NoneStrays(Spots(Roots(1, n)), At(Roots(1, n), Key(1)), At(Roots(1, n), Key(2)))
  {
    var f := Roots(1, n);
    RootsPlaced(1, n, 1, 1);
    RootsPlaced(1, n, 1, 2);
    RootsPlaced(1, n, 1, 5000002);
    assert f.next == Roots(2, n) && f.next.key == Key(2);
    SpotsHas(f);
    assert Key(5000002) in Spots(f) && Strayed(At(f, Key(5000002)), At(f, Key(1)), At(f, Key(2)), TEMP);
  }

  // ----- attaching

  /** `f` with `g` appended under `parent`, or as last trees where there is no parent. */
  function Attach(f: Forest, parent: Option<Key>, g: Forest): Forest {
    match parent
    case None => Append(f, g)
    case Some(p) => Graft(g).On(f, p)
  }

  predicate ParentIn(f: Forest, parent: Option<Key>) {
    parent.Some? ==> Has(f, parent.value)
  }

  /** The position where a forest would be attached: the right boundary of the parent, or the end. */
  ghost function Target(f: Forest, parent: Option<Key>): int {
    match parent
    case None => 2 * Size(f) + 1
    case Some(p) => At(f, p).rght
  }

  ghost function DepthUnder(f: Forest, parent: Option<Key>): int {
    match parent
    case None => 0
    case Some(p) => At(f, p).depth + 1
  }

  lemma AttachShape(f: Forest, parent: Option<Key>, g: Forest)
    requires Distinct(f) && Distinct(g) && Apart(f, g) && ParentIn(f, parent)
    ensures Distinct(Attach(f, parent, g))
    ensures Size(Attach(f, parent, g)) == Size(f) + Size(g)
  {
    AppendShape(f, g);
    if parent.Some? { SurgeryShape(Graft(g), f, parent.value); }
  }

  lemma AttachHas(f: Forest, parent: Option<Key>, g: Forest, x: Key)
    requires Distinct(f) && ParentIn(f, parent)
    ensures Has(Attach(f, parent, g), x) <==> Has(f, x) || Has(g, x)
  {
    match parent
    case None => AppendHas(f, g, x);
    case Some(p) => SurgeryHas(Graft(g), f, p, x);
  }

  /** Attaching opens a gap at the target. */
  lemma AttachedAround(f: Forest, parent: Option<Key>, g: Forest, x: Key)
    requires Distinct(f) && Distinct(g) && Apart(f, g) && ParentIn(f, parent)
    requires Has(f, x)
    ensures At(Attach(f, parent, g), x) == Open(Target(f, parent), 2 * Size(g)).Apply(At(f, x))
  {
    match parent
    case None =>
      PlaceInAppend(f, g, 1, None, 0, x);
      Span(f, 1, None, 0, x);
    case Some(p) =>
      SurgeryRenumbers(Graft(g), f, p, 1, None, 0, x);
      assert EditOf(Graft(g), f, p, 1, None, 0) == Open(At(f, p).rght, 2 * Size(g));
  }

  /** Attaching numbers the new trees in the gap. */
  lemma AttachedInto(f: Forest, parent: Option<Key>, g: Forest, x: Key)
    requires Distinct(f) && Distinct(g) && Apart(f, g) && ParentIn(f, parent)
    requires Has(g, x)
    ensures At(Attach(f, parent, g), x) == Place(g, Target(f, parent), parent, DepthUnder(f, parent), x)
  {
    match parent
    case None => PlaceInAppend(f, g, 1, None, 0, x);
    case Some(p) => GraftNumbers(f, p, g, 1, None, 0, x);
  }

  ghost function SpotUnder(f: Forest, parent: Option<Key>): Spot {
    Spot(Target(f, parent), Target(f, parent) + 1, parent, DepthUnder(f, parent))
  }

  lemma SpotsAfterLeaf(f: Forest, parent: Option<Key>, k: Key)
    requires Distinct(f) && !Has(f, k) && ParentIn(f, parent)
    ensures Distinct(Attach(f, parent, Leaf(k)))
    ensures Spots(Attach(f, parent, Leaf(k)))
         == Edited(Spots(f), Open(Target(f, parent), 2))[k := SpotUnder(f, parent)]
  {
    AttachShape(f, parent, Leaf(k));
    SpotsHas(f);
    forall x
      ensures Has(Attach(f, parent, Leaf(k)), x) <==> Has(f, x) || x == k
      ensures Has(f, x) ==> At(Attach(f, parent, Leaf(k)), x) == Open(Target(f, parent), 2).Apply(At(f, x))
    {
      AttachHas(f, parent, Leaf(k), x);
      if Has(f, x) { AttachedAround(f, parent, Leaf(k), x); }
    }
    assert At(Attach(f, parent, Leaf(k)), k) == SpotUnder(f, parent) by { AttachedInto(f, parent, Leaf(k), k); }
    SpotsAre(Attach(f, parent, Leaf(k)), Edited(Spots(f), Open(Target(f, parent), 2))[k := SpotUnder(f, parent)]);
  }

  // ----- moving

  /** `k`, with all that is below it, under another parent or among the roots. */
  function Transplant(f: Forest, k: Key, parent: Option<Key>): Forest {
    Attach(Cut.On(f, k), parent, Subtree(f, k))
  }

  /** `k` may hang under `parent`: the parent exists and is not in the subtree of `k`. */
  predicate MayHang(f: Forest, k: Key, parent: Option<Key>) {
    parent.Some? ==> Has(f, parent.value) && !Has(Subtree(f, k), parent.value)
  }

  lemma TransplantShape(f: Forest, k: Key, parent: Option<Key>)
    requires Distinct(f) && Has(f, k) && MayHang(f, k, parent)
    ensures ParentIn(Cut.On(f, k), parent) && Distinct(Cut.On(f, k))
    ensures Distinct(Subtree(f, k)) && Apart(Cut.On(f, k), Subtree(f, k))
    ensures Distinct(Transplant(f, k, parent))
    ensures Size(Transplant(f, k, parent)) == Size(f)
  {
    SubtreeShape(f, k);
    SurgeryShape(Cut, f, k);
    if parent.Some? { SurgeryHas(Cut, f, k, parent.value); }
    forall x | Has(Cut.On(f, k), x)
      ensures !Has(Subtree(f, k), x)
    {
      SurgeryHas(Cut, f, k, x);
    }
    AttachShape(Cut.On(f, k), parent, Subtree(f, k));
  }

  lemma TransplantHas(f: Forest, k: Key, parent: Option<Key>, x: Key)
    requires Distinct(f) && Has(f, k) && MayHang(f, k, parent)
    ensures Has(Transplant(f, k, parent), x) <==> Has(f, x)
  {
    TransplantShape(f, k, parent);
    AttachHas(Cut.On(f, k), parent, Subtree(f, k), x);
    SurgeryHas(Cut, f, k, x);
    if Has(Subtree(f, k), x) { SubtreeHas(f, k, x); }
  }

  /** A move sends each row where the statements of a move send it. */
  lemma MovedAt(f: Forest, k: Key, parent: Option<Key>, x: Key)
    requires Distinct(f) && Has(f, k) && Has(f, x) && MayHang(f, k, parent)
    ensures At(Transplant(f, k, parent), x)
         == Relocate(At(f, x), At(f, k), Target(Cut.On(f, k), parent), DepthUnder(Cut.On(f, k), parent))
            .(parent := if x == k then parent else At(f, x).parent)
  {
    hide Place, Edit.Apply, Distinct;
    var rest, g := Cut.On(f, k), Subtree(f, k);
    TransplantShape(f, k, parent);
    SubtreeSpan(f, 1, None, 0, k, x);
    SubtreeShape(f, k);
    PlaceInSubtree(f, 1, None, 0, k, k);
    if Has(g, x) {
      AttachedInto(rest, parent, g, x);
      MovedAlong(f, k, x, Target(rest, parent), parent, DepthUnder(rest, parent));
    } else {
      SurgeryHas(Cut, f, k, x);
      AttachedAround(rest, parent, g, x);
      CutAt(f, k, x);
      ShiftsKeepParent(At(f, x), Target(rest, parent), At(f, k).rght, 2 * Size(g));
    }
  }

  lemma ShiftsKeepParent(p: Spot, point: int, last: int, width: int)
    ensures Open(point, width).Apply(Close(last, width).Apply(p)).parent == p.parent
  {}

  /** A subtree numbered from another place keeps its own shape. */
  lemma MovedAlong(f: Forest, k: Key, x: Key, target: int, parent: Option<Key>, depth: int)
    requires Distinct(f) && Has(f, k) && Has(Subtree(f, k), x)
    ensures Place(Subtree(f, k), target, parent, depth, x)
         == At(f, x).(lft := At(f, x).lft + target - At(f, k).lft, rght := At(f, x).rght + target - At(f, k).lft,
                      depth := At(f, x).depth + depth - At(f, k).depth,
                      parent := if x == k then parent else At(f, x).parent)
  {
    var at, g := At(f, k), Subtree(f, k);
    SubtreeShape(f, k);
    PlaceInSubtree(f, 1, None, 0, k, x);
    if x != k {
      Rebase(g.kids, at.lft + 1, Some(k), at.depth + 1, target + 1, Some(k), depth + 1, x);
    }
  }

  /** The gap that a move opens is where the parent's right boundary stands once the old gap has closed. */
  lemma TargetAfterCut(f: Forest, k: Key, parent: Option<Key>)
    requires Distinct(f) && Has(f, k) && MayHang(f, k, parent)
    ensures Target(Cut.On(f, k), parent)
         == if Target(f, parent) > At(f, k).rght then Target(f, parent) - (At(f, k).rght - At(f, k).lft + 1)
            else Target(f, parent)
    ensures DepthUnder(Cut.On(f, k), parent) == DepthUnder(f, parent)
    ensures Target(Cut.On(f, k), parent) >= 1
  {
    SurgeryShape(Cut, f, k);
    SubtreeShape(f, k);
    PlaceInSubtree(f, 1, None, 0, k, k);
    Span(f, 1, None, 0, k);
    match parent
    case None =>
    case Some(p) =>
      CutAt(f, k, p);
      SurgeryHas(Cut, f, k, p);
      Span(Cut.On(f, k), 1, None, 0, p);
  }

  /** The guard against moving a node below itself rejects exactly the parents in its subtree. */
  lemma GuardIsSubtree(f: Forest, k: Key, p: Key)
    requires Distinct(f) && Has(f, k) && Has(f, p)
    ensures Has(Subtree(f, k), p)
       <==> || (At(f, k).lft < At(f, p).lft && At(f, p).rght < At(f, k).rght)
            || (At(f, p).lft == At(f, k).lft && At(f, p).rght == At(f, k).rght)
  {
    SubtreeSpan(f, 1, None, 0, k, p);
    Span(f, 1, None, 0, k);
    Span(f, 1, None, 0, p);
    if p != k { NeverCross(f, 1, None, 0, p, k); }
  }

  lemma SpotsAfterMove(f: Forest, k: Key, parent: Option<Key>)
    requires Distinct(f) && Has(f, k) && MayHang(f, k, parent)
    ensures k in Spots(f) && Distinct(Transplant(f, k, parent))
    ensures var moved := Relocated(Spots(f), At(f, k), Target(Cut.On(f, k), parent), DepthUnder(Cut.On(f, k), parent));
            Spots(Transplant(f, k, parent)) == moved[k := moved[k].(parent := parent)]
  {
    hide Place, PreOrder, Distinct;
    var moved := Relocated(Spots(f), At(f, k), Target(Cut.On(f, k), parent), DepthUnder(Cut.On(f, k), parent));
    TransplantShape(f, k, parent);
    SpotsHas(f);
    forall x
      ensures Has(Transplant(f, k, parent), x) <==> Has(f, x)
      ensures Has(f, x) ==>
        At(Transplant(f, k, parent), x) == moved[x].(parent := if x == k then parent else At(f, x).parent)
    {
      TransplantHas(f, k, parent, x);
      if Has(f, x) { MovedAt(f, k, parent, x); }
    }
    SpotsAre(Transplant(f, k, parent), moved[k := moved[k].(parent := parent)]);
  }

  // ----- removing

  /** `k` without its children, as the last root; its children in its old place. */
  function Retire(f: Forest, k: Key): Forest { Append(Dissolve.On(f, k), Leaf(k)) }

  lemma SpotsAfterRetire(f: Forest, k: Key)
    requires Distinct(f) && Has(f, k)
    ensures k in Spots(f) && Distinct(Retire(f, k))
    ensures Spots(Retire(f, k)) == Retired(Spots(f), k, 2 * Size(f))
  {
    SpotsHas(f);
    SpotsHas(Retire(f, k));
    forall x
      ensures Has(Retire(f, k), x) <==> Has(f, x)
      ensures Has(f, x) && x != k ==> At(Retire(f, k), x) == Unwrap(k, At(f, k)).Apply(At(f, x))
    {
      RetiredHas(f, k, x);
      if Has(f, x) && x != k { RetiredAround(f, k, x); }
    }
    RetiredItself(f, k);
  }

  lemma RetiredHas(f: Forest, k: Key, x: Key)
    requires Distinct(f) && Has(f, k)
    ensures Has(Retire(f, k), x) <==> Has(f, x)
  {
    SurgeryHas(Dissolve, f, k, x);
    AppendHas(Dissolve.On(f, k), Leaf(k), x);
  }

  lemma RetiredAround(f: Forest, k: Key, x: Key)
    requires Distinct(f) && Has(f, k) && Has(f, x) && x != k
    ensures At(Retire(f, k), x) == Unwrap(k, At(f, k)).Apply(At(f, x))
  {
    SurgeryHas(Dissolve, f, k, x);
    PlaceInAppend(Dissolve.On(f, k), Leaf(k), 1, None, 0, x);
    SurgeryRenumbers(Dissolve, f, k, 1, None, 0, x);
    assert EditOf(Dissolve, f, k, 1, None, 0) == Unwrap(k, At(f, k));
  }

  lemma RetiredItself(f: Forest, k: Key)
    requires Distinct(f) && Has(f, k)
    ensures Distinct(Retire(f, k))
    ensures At(Retire(f, k), k) == Spot(2 * Size(f) - 1, 2 * Size(f), None, 0)
  {
    var g := Dissolve.On(f, k);
    SurgeryHas(Dissolve, f, k, k);
    SurgeryShape(Dissolve, f, k);
    assert Size(g) == Size(f) - 1;
    assert Apart(g, Leaf(k));
    AppendShape(g, Leaf(k));
    PlaceInAppend(g, Leaf(k), 1, None, 0, k);
    assert Place(Leaf(k), 2 * Size(g) + 1, None, 0, k) == Spot(2 * Size(g) + 1, 2 * Size(g) + 2, None, 0);
  }
}
