/** The check of stored boundaries. */
module TreeValidation {
  import opened Wrappers
  import opened Forests
  import opened NestedSets
  import opened TreeTables
  import opened TreeRefinement
  import opened Sorting
  import opened TreeRecovery

  datatype TreeError =
    | NotOrdered(key: Key)               // lft must be less than rght
    | NotPositive(key: Key)              // lft must be positive
    | Overlaps(key: Key, other: Key)

  /** What each error says about the rows. */
  ghost predicate Fault(rows: seq<NodeResult>, e: TreeError) {
    match e
    case NotOrdered(k) => exists r :: r in rows && r.key == k && r.spot.lft >= r.spot.rght
    case NotPositive(k) => exists r :: r in rows && r.key == k && r.spot.lft < 1
    case Overlaps(k, k') => exists r, s :: r in rows && s in rows && r.key == k && s.key == k' && Overlap(r, s)
  }

  /** `s` starts in `r` and ends after it. */
  predicate Overlap(r: NodeResult, s: NodeResult) {
    r.spot.lft < s.spot.lft < r.spot.rght < s.spot.rght
  }

  ghost predicate DistinctLefts(rows: seq<NodeResult>) {
    && DistinctKeys(rows)
    && forall r, s | r in rows && s in rows && r != s :: r.spot.lft != s.spot.lft
  }

  function ByLeft(): Less { (a: NodeResult, b: NodeResult) => a.spot.lft < b.spot.lft }

  ghost predicate LeftsAscend(rows: seq<NodeResult>) {
    forall i, j | 0 <= i < j < |rows| :: rows[i].spot.lft < rows[j].spot.lft
  }

  /** An error about the rows before `i`, or about row `i` and a row before `j`. */
  ghost predicate FoundBy(items: seq<NodeResult>, i: nat, j: nat, e: TreeError)
    requires i <= |items| && j <= |items|
  {
    match e
    case NotOrdered(k) => exists n :: 0 <= n < i && items[n].key == k && items[n].spot.lft >= items[n].spot.rght
    case NotPositive(k) => exists n :: 0 <= n < i && items[n].key == k && items[n].spot.lft < 1
    case Overlaps(k, k') =>
      exists n, m :: 0 <= n < |items| && 0 <= m < |items| && (n < i - 1 || (n == i - 1 && m < j))
        && items[n].key == k && items[m].key == k' && Overlap(items[n], items[m])
  }

  /** Reports exactly the faults, whatever the order of the rows. */
  method ValidateTree(rows: seq<NodeResult>) returns (errors: seq<TreeError>)
    requires DistinctLefts(rows)
    ensures forall e :: e in errors <==> Fault(rows, e)
  {
    hide DistinctLefts, Ascending, Fault;
    ByLeftIsWeak();
    hide StrictWeak;
    var items := Sort(rows, ByLeft());
    SortedLefts(rows, items);
    errors := [];
    for i := 0 to |items|
      invariant forall e :: e in errors <==> FoundBy(items, i, |items|, e)
    {
      var node := items[i];
      if node.spot.lft >= node.spot.rght {
        errors := errors + [NotOrdered(node.key)];
      }
      if node.spot.lft < 1 {
        errors := errors + [NotPositive(node.key)];
      }
      for j := i + 1 to |items|
        invariant forall e :: e in errors <==> FoundBy(items, i + 1, j, e)
      {
        var other := items[j];
        if other.spot.lft < node.spot.rght && other.spot.rght > node.spot.rght {
          errors := errors + [Overlaps(node.key, other.key)];
        }
      }
    }
    FoundAll(rows, items);
  }

  lemma ByLeftIsWeak()
    ensures StrictWeak(ByLeft())
  {}

  lemma SortedLefts(rows: seq<NodeResult>, items: seq<NodeResult>)
    requires DistinctLefts(rows) && multiset(items) == multiset(rows)
    requires Ascending(items, ByLeft())
    ensures LeftsAscend(items)
  {
    SortKeepsKeys(rows, items);
    SameMembers(rows, items);
    forall i, j | 0 <= i < j < |items|
      ensures items[i].spot.lft < items[j].spot.lft
    {
      assert items[i] in rows && items[j] in rows && items[i].key != items[j].key;
      assert !ByLeft()(items[j], items[i]);
    }
  }

  lemma FoundAll(rows: seq<NodeResult>, items: seq<NodeResult>)
    requires multiset(items) == multiset(rows)
    ensures forall e :: FoundBy(items, |items|, |items|, e) <==> Fault(rows, e)
  {
    SameMembers(rows, items);
  }

  /** A recovered table has no fault, and its boundaries are told apart. */
  lemma NumberingsPass(f: Forest, rows: seq<NodeResult>)
    requires Distinct(f) && DistinctKeys(rows)
    requires forall r | r in rows :: Has(f, r.key) && r.spot == At(f, r.key)
    ensures DistinctLefts(rows) && forall e :: !Fault(rows, e)
  {
    forall r, s | r in rows && s in rows && r != s
      ensures 1 <= r.spot.lft < r.spot.rght && Untangled(r.spot, s.spot)
    {
      Span(f, 1, None, 0, r.key);
      Span(f, 1, None, 0, s.key);
      NeverCross(f, 1, None, 0, r.key, s.key);
    }
    forall r | r in rows
      ensures 1 <= r.spot.lft < r.spot.rght
    {
      Span(f, 1, None, 0, r.key);
    }
  }

  /** The check sees no gaps, and lets two rows share a right boundary. */
  lemma PassesWithGaps()
    ensures var rows := [NodeResult(Key(1), Spot(1, 9, None, 0)), NodeResult(Key(2), Spot(4, 9, Some(Key(1)), 1))];
            DistinctLefts(rows) && forall e :: !Fault(rows, e)
  {}
}
