/** Rebuilding the boundaries from the parent columns, whatever the boundaries were. */
module TreeRecovery {
  import opened Wrappers
  import opened Forests
  import opened NestedSets
  import opened Sorting
  import opened NestedSetSurgery

  type Less = (NodeResult, NodeResult) -> bool

  ghost predicate DistinctKeys(nodes: seq<NodeResult>) {
    forall i, j | 0 <= i < j < |nodes| :: nodes[i].key != nodes[j].key
  }

  // ----- grouping and sorting

  /** The nodes under `parent`, in the order of the list. */
  function ChildrenOf(nodes: seq<NodeResult>, parent: Option<Key>): seq<NodeResult> {
    if nodes == [] then []
    else
      var rest := ChildrenOf(nodes[..|nodes| - 1], parent);
      var last := nodes[|nodes| - 1];
      if last.spot.parent == parent then rest + [last] else rest
  }

  type Groups = map<Option<Key>, seq<NodeResult>>

  function Group(groups: Groups, parent: Option<Key>): seq<NodeResult> {
    if parent in groups then groups[parent] else []
  }

  method GroupByParent(nodes: seq<NodeResult>) returns (children: Groups)
    ensures forall p :: Group(children, p) == ChildrenOf(nodes, p)
  {
    children := map[];
    for i := 0 to |nodes|
      invariant forall p :: Group(children, p) == ChildrenOf(nodes[..i], p)
    {
      assert nodes[..i + 1][..i] == nodes[..i];
      var p := nodes[i].spot.parent;
      children := children[p := Group(children, p) + [nodes[i]]];
    }
    assert nodes[..|nodes|] == nodes;
  }

  lemma SortKeepsKeys(xs: seq<NodeResult>, ys: seq<NodeResult>)
    requires multiset(xs) == multiset(ys) && DistinctKeys(xs)
    ensures DistinctKeys(ys)
  {
    var apart := (a: NodeResult, b: NodeResult) => a.key != b.key;
    assert PairwiseApart(xs, apart);
    PermutationKeepsApart(xs, ys, apart);
    assert forall i, j | 0 <= i < j < |ys| :: apart(ys[i], ys[j]);
  }

  method SortGroups(groups: Groups, less: Less) returns (sorted: Groups)
    requires StrictWeak(less)
    ensures sorted.Keys == groups.Keys
    ensures forall p | p in groups :: multiset(sorted[p]) == multiset(groups[p]) && Ascending(sorted[p], less)
    ensures forall p | p in groups :: DistinctKeys(groups[p]) ==> DistinctKeys(sorted[p])
  {
    sorted := groups;
    var todo := groups.Keys;
    while todo != {}
      invariant sorted.Keys == groups.Keys && todo <= groups.Keys
      invariant forall p | p in todo :: sorted[p] == groups[p]
      invariant forall p | p in groups && p !in todo ::
                  multiset(sorted[p]) == multiset(groups[p]) && Ascending(sorted[p], less)
      invariant forall p | p in groups :: DistinctKeys(groups[p]) ==> DistinctKeys(sorted[p])
    {
      var p :| p in todo;
      var s := Sort(sorted[p], less);
      if DistinctKeys(groups[p]) { SortKeepsKeys(groups[p], s); }
      sorted := sorted[p := s];
      todo := todo - {p};
    }
  }

  // ----- what the walk visits

  /** `k` is in the list, `h` steps below a node without a parent. */
  ghost predicate Rooted(nodes: seq<NodeResult>, k: Key, h: nat)
    decreases h
  {
    exists n :: n in nodes && n.key == k
      && match n.spot.parent
         case None => h == 0
         case Some(p) => h > 0 && Rooted(nodes, p, h - 1)
  }

  /** `k` is in the list, under `parent`. */
  ghost predicate Listed(nodes: seq<NodeResult>, k: Key, parent: Option<Key>) {
    exists n :: n in nodes && n.key == k && n.spot.parent == parent
  }

  lemma ListedIsRooted(nodes: seq<NodeResult>, k: Key, par: Option<Key>, d: nat)
    requires Listed(nodes, k, par) && RootedAt(nodes, par, d)
    ensures Rooted(nodes, k, d) && RootedAt(nodes, Some(k), d + 1)
  {}

  lemma RootedIsListed(nodes: seq<NodeResult>, k: Key, h: nat) returns (par: Option<Key>)
    requires Rooted(nodes, k, h)
    ensures Listed(nodes, k, par) && RootedAt(nodes, par, h)
  {
    var n :| n in nodes && n.key == k
      && match n.spot.parent case None => h == 0 case Some(p) => h > 0 && Rooted(nodes, p, h - 1);
    par := n.spot.parent;
  }

  /** The parent chain of `k` reaches null. */
  ghost predicate ReachesNull(nodes: seq<NodeResult>, k: Key) {
    exists h: nat :: Rooted(nodes, k, h)
  }

  /** The end of a chain of `d` steps from null: null itself, or a node. */
  ghost predicate RootedAt(nodes: seq<NodeResult>, p: Option<Key>, d: nat) {
    match p
    case None => d == 0
    case Some(k) => d > 0 && Rooted(nodes, k, d - 1)
  }

  lemma {:induction false} RootedOnce(nodes: seq<NodeResult>, k: Key, h: nat, h': nat)
    requires DistinctKeys(nodes) && Rooted(nodes, k, h) && Rooted(nodes, k, h')
    ensures h == h'
    decreases h
  {
    var n :| n in nodes && n.key == k
      && match n.spot.parent case None => h == 0 case Some(p) => h > 0 && Rooted(nodes, p, h - 1);
    if n.spot.parent.Some? {
      RootedOnce(nodes, n.spot.parent.value, h - 1, h' - 1);
    }
  }

  lemma ChildIsRooted(nodes: seq<NodeResult>, n: NodeResult, d: nat)
    requires n in nodes && RootedAt(nodes, n.spot.parent, d)
    ensures Rooted(nodes, n.key, d) && RootedAt(nodes, Some(n.key), d + 1)
  {}

  lemma {:induction false} ChildrenAre(nodes: seq<NodeResult>, p: Option<Key>, n: NodeResult)
    ensures n in ChildrenOf(nodes, p) <==> n in nodes && n.spot.parent == p
  {
    if nodes != [] {
      ChildrenAre(nodes[..|nodes| - 1], p, n);
      assert nodes == nodes[..|nodes| - 1] + [nodes[|nodes| - 1]];
    }
  }

  /** What the strategy writes for one node. */
  datatype RecoverUpdate = RecoverUpdate(key: Key, lft: int, rght: int, depth: int)

  /** The updates for `f`, each after those below it. */
  function Updates(f: Forest, start: int, d: int): seq<RecoverUpdate> {
    match f
    case Nil => []
    case Node(k, kids, next) =>
      Updates(kids, start + 1, d + 1)
      + [RecoverUpdate(k, start, start + 2 * Size(kids) + 1, d)]
      + Updates(next, start + 2 * Size(kids) + 2, d)
  }

  lemma {:induction false} UpdatesOfAppend(f: Forest, g: Forest, start: int, d: int)
    ensures Updates(Append(f, g), start, d) == Updates(f, start, d) + Updates(g, start + 2 * Size(f), d)
  {
    hide Updates;
    match f
    case Nil => NoUpdates(g, start, d);
    case Node(k, kids, next) =>
      var base := start + 2 * Size(kids) + 2;
      UpdatesOfAppend(next, g, base, d);
      UpdatesStep(k, kids, next, start, d);
      UpdatesStep(k, kids, Append(next, g), start, d);
      Regroup(UpdatesOfFirst(k, kids, start, d), Updates(next, base, d), Updates(g, start + 2 * Size(f), d));
  }

  function UpdatesOfFirst(k: Key, kids: Forest, start: int, d: int): seq<RecoverUpdate> {
    Updates(kids, start + 1, d + 1) + [RecoverUpdate(k, start, start + 2 * Size(kids) + 1, d)]
  }

  lemma UpdatesStep(k: Key, kids: Forest, next: Forest, start: int, d: int)
    ensures Updates(Node(k, kids, next), start, d)
         == UpdatesOfFirst(k, kids, start, d) + Updates(next, start + 2 * Size(kids) + 2, d)
  {}

  lemma NoUpdates(g: Forest, start: int, d: int)
    ensures Updates(g, start, d) == Updates(Nil, start, d) + Updates(g, start, d)
  {
    assert Updates(Nil, start, d) == [];
  }

  lemma Regroup<T>(a: seq<T>, b: seq<T>, c: seq<T>)
    ensures a + (b + c) == (a + b) + c
  {}

  function NodeKeys(nodes: seq<NodeResult>): (ks: seq<Key>)
    ensures |ks| == |nodes| && forall i | 0 <= i < |nodes| :: ks[i] == nodes[i].key
  {
    seq(|nodes|, i requires 0 <= i < |nodes| => nodes[i].key)
  }

  /** Below every key of `f` hang the nodes of its group, in the order of the group. */
  ghost predicate KidsFollow(f: Forest, children: Groups) {
    match f
    case Nil => true
    case Node(k, kids, next) =>
      Tops(kids) == NodeKeys(Group(children, Some(k))) && KidsFollow(kids, children) && KidsFollow(next, children)
  }

  lemma {:induction false} AppendFollows(f: Forest, g: Forest, children: Groups)
    ensures Tops(Append(f, g)) == Tops(f) + Tops(g)
    ensures KidsFollow(Append(f, g), children) <==> KidsFollow(f, children) && KidsFollow(g, children)
  {
    match f
    case Nil =>
    case Node(k, kids, next) => AppendFollows(next, g, children);
  }

  /** The keys on the path from the roots to here: a new one at every level, so the walk ends
      even where parents form a cycle. */
  ghost predicate OnPath(nodes: seq<NodeResult>, path: set<Key>, d: nat) {
    forall k | k in path :: k in KeySet(nodes) && exists h: nat :: h < d && Rooted(nodes, k, h)
  }

  ghost function KeySet(nodes: seq<NodeResult>): set<Key> { set n | n in nodes :: n.key }

  /** One more tree after `f`. */
  lemma GrowsByTree(f: Forest, k: Key, kids: Forest, start: int, d: int, children: Groups)
    requires KidsFollow(f, children) && KidsFollow(kids, children)
    requires Tops(kids) == NodeKeys(Group(children, Some(k)))
    ensures var g := Append(f, Node(k, kids, Nil));
            && Tops(g) == Tops(f) + [k] && KidsFollow(g, children)
            && Size(g) == Size(f) + 1 + Size(kids)
            && var lft := start + 2 * Size(f);
               Updates(g, start, d) == Updates(f, start, d) + Updates(kids, lft + 1, d + 1)
                                       + [RecoverUpdate(k, lft, lft + 2 * Size(kids) + 1, d)]
  {
    var tree := Node(k, kids, Nil);
    AppendFollows(f, tree, children);
    AppendShape(f, tree);
    assert Tops(tree) == [k] && KidsFollow(tree, children);
    UpdatesGrow(f, k, kids, start, d);
  }

  lemma UpdatesGrow(f: Forest, k: Key, kids: Forest, start: int, d: int)
    ensures var lft := start + 2 * Size(f);
            Updates(Append(f, Node(k, kids, Nil)), start, d)
            == Updates(f, start, d) + Updates(kids, lft + 1, d + 1)
               + [RecoverUpdate(k, lft, lft + 2 * Size(kids) + 1, d)]
  {
    hide Append;
    var tree := Node(k, kids, Nil);
    var lft := start + 2 * Size(f);
    var last := [RecoverUpdate(k, lft, lft + 2 * Size(kids) + 1, d)];
    UpdatesOfAppend(f, tree, start, d);
    assert Updates(Nil, lft + 2 * Size(kids) + 2, d) == [];
    assert Updates(tree, lft, d) == Updates(kids, lft + 1, d + 1) + last;
    hide Updates;
    Regroup(Updates(f, start, d), Updates(kids, lft + 1, d + 1), last);
  }

  lemma GrowsFromNil(start: int, d: int, children: Groups)
    ensures Tops(Nil) == [] && KidsFollow(Nil, children) && Size(Nil) == 0 && Updates(Nil, start, d) == []
  {}

  /** Numbers what is below `parent` from `left` on, appending to the updates. */
  method Traverse(children: Groups, parent: Option<Key>, left: int, depth: nat, updates: seq<RecoverUpdate>,
                  ghost nodes: seq<NodeResult>, ghost path: set<Key>)
    returns (right: int, updates': seq<RecoverUpdate>, ghost f: Forest)
    requires DistinctKeys(nodes)
    requires forall p, n :: n in Group(children, p) <==> n in nodes && n.spot.parent == p
    requires RootedAt(nodes, parent, depth) && OnPath(nodes, path, depth)
    ensures updates' == updates + Updates(f, left, depth) && right == left + 2 * Size(f)
    ensures Tops(f) == NodeKeys(Group(children, parent)) && KidsFollow(f, children)
    decreases |KeySet(nodes)| - |path|
  {
    hide DistinctKeys, Rooted, RootedAt, OnPath, KeySet, Updates, Size, Tops, KidsFollow, Append;
    GrowsFromNil(left, depth, children);
    updates' := updates;
    right := left;
    f := Nil;
    if parent !in children {
      return;
    }
    var found := children[parent];
    for i := 0 to |found|
      invariant updates' == updates + Updates(f, left, depth) && right == left + 2 * Size(f)
      invariant Tops(f) == NodeKeys(found[..i]) && KidsFollow(f, children)
    {
      var child := found[i];
      assert child in Group(children, parent);
      var lft := right;
      NewOnPath(nodes, child, path, depth);
      ghost var kids;
      right, updates', kids :=
        Traverse(children, Some(child.key), right + 1, depth + 1, updates', nodes, path + {child.key});
      updates' := updates' + [RecoverUpdate(child.key, lft, right, depth)];
      right := right + 1;
      GrowsByTree(f, child.key, kids, left, depth, children);
      f := Append(f, Node(child.key, kids, Nil));
      assert NodeKeys(found[..i + 1]) == NodeKeys(found[..i]) + [child.key];
    }
    assert found[..|found|] == found;
  }

  lemma NewOnPath(nodes: seq<NodeResult>, child: NodeResult, path: set<Key>, d: nat)
    requires DistinctKeys(nodes) && child in nodes && RootedAt(nodes, child.spot.parent, d) && OnPath(nodes, path, d)
    ensures RootedAt(nodes, Some(child.key), d + 1) && OnPath(nodes, path + {child.key}, d + 1)
    ensures |path + {child.key}| == |path| + 1 <= |KeySet(nodes)|
  {
    ChildIsRooted(nodes, child, d);
    hide Rooted, RootedAt, DistinctKeys;
    assert child.key !in path by {
      if child.key in path {
        var h: nat :| h < d && Rooted(nodes, child.key, h);
        RootedOnce(nodes, child.key, h, d);
      }
    }
    assert child.key in KeySet(nodes);
    FitsIn(path + {child.key}, KeySet(nodes));
  }

  lemma FitsIn<T>(a: set<T>, b: set<T>)
    requires a <= b
    ensures |a| <= |b|
  {
    assert b == a + (b - a);
  }

  /** The groups hold the list: every node under its parent, each once, in order. */
  ghost predicate Grouped(children: Groups, nodes: seq<NodeResult>, less: Less) {
    && (forall p, n :: n in Group(children, p) <==> n in nodes && n.spot.parent == p)
    && (forall p :: DistinctKeys(Group(children, p)))
    && (forall p :: Ascending(Group(children, p), less))
  }

  // ----- the forest that the walk finds

  /** Every key of `f` stands in the list with its parent in `f`. */
  ghost predicate ParentsAgree(f: Forest, nodes: seq<NodeResult>, par: Option<Key>) {
    match f
    case Nil => true
    case Node(k, kids, next) =>
      && Listed(nodes, k, par)
      && ParentsAgree(kids, nodes, Some(k)) && ParentsAgree(next, nodes, par)
  }

  lemma {:induction false} FoundUnderParent(f: Forest, nodes: seq<NodeResult>, children: Groups, par: Option<Key>)
    requires forall p, n :: n in Group(children, p) <==> n in nodes && n.spot.parent == p
    requires KidsFollow(f, children) && forall k | k in Tops(f) :: k in NodeKeys(Group(children, par))
    ensures ParentsAgree(f, nodes, par)
  {
    match f
    case Nil =>
    case Node(k, kids, next) =>
      assert k in Tops(f);
      var i :| 0 <= i < |Group(children, par)| && Group(children, par)[i].key == k;
      assert Group(children, par)[i] in Group(children, par);
      FoundUnderParent(kids, nodes, children, Some(k));
      FoundUnderParent(next, nodes, children, par);
  }

  /** `t` is reached from `x` by following `e` parents. */
  ghost predicate Via(nodes: seq<NodeResult>, x: Key, t: Key, e: nat)
    decreases e
  {
    if e == 0 then x == t
    else exists n :: n in nodes && n.key == x && n.spot.parent.Some? && Via(nodes, n.spot.parent.value, t, e - 1)
  }

  lemma {:induction false} OneMoreStep(nodes: seq<NodeResult>, x: Key, t: Key, p: Key, e: nat)
    requires Via(nodes, x, t, e) && Listed(nodes, t, Some(p))
    ensures Via(nodes, x, p, e + 1)
    decreases e
  {
    if e == 0 {
      assert Via(nodes, p, p, 0);
    } else {
      var m :| m in nodes && m.key == x && m.spot.parent.Some? && Via(nodes, m.spot.parent.value, t, e - 1);
      OneMoreStep(nodes, m.spot.parent.value, t, p, e - 1);
    }
  }

  lemma {:induction false} ViaOnce(nodes: seq<NodeResult>, x: Key, t: Key, t': Key, e: nat)
    requires DistinctKeys(nodes) && Via(nodes, x, t, e) && Via(nodes, x, t', e)
    ensures t == t'
    decreases e
  {
    if e > 0 {
      var m :| m in nodes && m.key == x && m.spot.parent.Some? && Via(nodes, m.spot.parent.value, t, e - 1);
      ViaOnce(nodes, m.spot.parent.value, t, t', e - 1);
    }
  }

  /** From every key of `f`, parents lead to a top of `f`, and on to null. */
  lemma {:induction false} LeadsToTop(f: Forest, nodes: seq<NodeResult>, par: Option<Key>, d: nat, x: Key)
    returns (t: Key, e: nat)
    requires ParentsAgree(f, nodes, par) && RootedAt(nodes, par, d) && Has(f, x)
    ensures t in Tops(f) && Via(nodes, x, t, e) && Rooted(nodes, x, d + e)
    ensures Listed(nodes, t, par)
  {
    hide Rooted, RootedAt, Listed;
    var Node(k, kids, next) := f;
    ListedIsRooted(nodes, k, par, d);
    if x == k {
      t, e := k, 0;
    } else if Has(kids, x) {
      t, e := LeadsToTop(kids, nodes, Some(k), d + 1, x);
      OneMoreStep(nodes, x, t, k, e);
      t, e := k, e + 1;
    } else {
      t, e := LeadsToTop(next, nodes, par, d, x);
    }
  }

  /** Nothing is found twice. */
  lemma {:induction false} FoundOnce(f: Forest, nodes: seq<NodeResult>, children: Groups, par: Option<Key>, d: nat)
    requires DistinctKeys(nodes) && RootedAt(nodes, par, d)
    requires ParentsAgree(f, nodes, par) && KidsFollow(f, children)
    requires NoRepeat(Tops(f)) && forall p :: DistinctKeys(Group(children, p))
    ensures Distinct(f)
  {
    match f
    case Nil =>
    case Node(k, kids, next) =>
      ListedIsRooted(nodes, k, par, d);
      assert NoRepeat(Tops(kids)) by {
        assert Tops(kids) == NodeKeys(Group(children, Some(k)));
      }
      assert NoRepeat(Tops(next)) && k !in Tops(next) by {
        assert Tops(f)[0] == k;
        assert Tops(next) == Tops(f)[1..];
      }
      FoundOnce(kids, nodes, children, Some(k), d + 1);
      FoundOnce(next, nodes, children, par, d);
      forall x
        ensures !(Has(kids, x) && (x == k || Has(next, x))) && !Has(next, k)
      {
        TopsApart(k, kids, next, nodes, par, d, x);
      }
  }

  lemma TopsApart(k: Key, kids: Forest, next: Forest, nodes: seq<NodeResult>, par: Option<Key>, d: nat, x: Key)
    requires DistinctKeys(nodes) && RootedAt(nodes, par, d)
    requires ParentsAgree(Node(k, kids, next), nodes, par) && k !in Tops(next)
    ensures !(Has(kids, x) && (x == k || Has(next, x))) && !Has(next, k)
  {
    hide Rooted, RootedAt, Listed, DistinctKeys, Via;
    ListedIsRooted(nodes, k, par, d);
    if Has(next, k) {
      var t, e := LeadsToTop(next, nodes, par, d, k);
      RootedOnce(nodes, k, d, d + e);
      ViaOnce(nodes, k, k, t, 0) by { ViaHere(nodes, k); }
    }
    if Has(kids, x) {
      KidsAreDeeper(k, kids, next, nodes, par, d, x);
    }
  }

  lemma ViaHere(nodes: seq<NodeResult>, k: Key)
    ensures Via(nodes, k, k, 0)
  {}

  lemma KidsAreDeeper(k: Key, kids: Forest, next: Forest, nodes: seq<NodeResult>, par: Option<Key>, d: nat, x: Key)
    requires DistinctKeys(nodes) && RootedAt(nodes, par, d)
    requires ParentsAgree(Node(k, kids, next), nodes, par) && k !in Tops(next)
    requires Has(kids, x)
    ensures x != k && !Has(next, x)
  {
    hide Rooted, RootedAt, Listed, DistinctKeys, Via;
    ListedIsRooted(nodes, k, par, d);
    var t, e := LeadsToTop(kids, nodes, Some(k), d + 1, x);
    OneMoreStep(nodes, x, t, k, e);
    if x == k {
      RootedOnce(nodes, k, d, d + 1 + e);
    } else if Has(next, x) {
      var t', e' := LeadsToTop(next, nodes, par, d, x);
      RootedOnce(nodes, x, d + 1 + e, d + e');
      ViaOnce(nodes, x, k, t', e');
    }
  }

  /** Whatever reaches null is found. */
  lemma {:induction false} ReachedIsFound(f: Forest, nodes: seq<NodeResult>, children: Groups, x: Key, h: nat)
    requires forall p, n :: n in Group(children, p) <==> n in nodes && n.spot.parent == p
    requires KidsFollow(f, children) && Tops(f) == NodeKeys(Group(children, None))
    requires Rooted(nodes, x, h)
    ensures Has(f, x)
    decreases h
  {
    hide Rooted, Listed, Group, NodeKeys, KidsFollow;
    var par := RootedIsListed(nodes, x, h);
    ListedIsGrouped(nodes, children, x, par);
    match par
    case None => TopsHas(f, x);
    case Some(p) =>
      ReachedIsFound(f, nodes, children, p, h - 1);
      KidsFound(f, children, p, x);
  }

  lemma ListedIsGrouped(nodes: seq<NodeResult>, children: Groups, x: Key, par: Option<Key>)
    requires forall p, n :: n in Group(children, p) <==> n in nodes && n.spot.parent == p
    requires Listed(nodes, x, par)
    ensures x in NodeKeys(Group(children, par))
  {
    var n :| n in nodes && n.key == x && n.spot.parent == par;
    assert n in Group(children, par);
    var i :| 0 <= i < |Group(children, par)| && Group(children, par)[i] == n;
    assert NodeKeys(Group(children, par))[i] == x;
  }

  lemma {:induction false} TopsHas(f: Forest, x: Key)
    requires x in Tops(f)
    ensures Has(f, x)
  {
    if x != f.key {
      assert x in Tops(f.next);
      TopsHas(f.next, x);
    }
  }

  lemma {:induction false} KidsFound(f: Forest, children: Groups, p: Key, x: Key)
    requires KidsFollow(f, children) && Has(f, p) && x in NodeKeys(Group(children, Some(p)))
    ensures Has(f, x)
  {
    var Node(k, kids, next) := f;
    if p == k {
      TopsHas(kids, x);
    } else if Has(kids, p) {
      KidsFound(kids, children, p, x);
    } else {
      KidsFound(next, children, p, x);
    }
  }

  /** The numbering keeps every parent column, and its depth is the length of the parent chain. */
  lemma {:induction false} NumberedAsListed(f: Forest, nodes: seq<NodeResult>, start: int, par: Option<Key>, d: nat,
                                            n: NodeResult)
    requires DistinctKeys(nodes) && ParentsAgree(f, nodes, par) && RootedAt(nodes, par, d)
    requires n in nodes && Has(f, n.key)
    ensures Place(f, start, par, d, n.key).parent == n.spot.parent
    ensures Place(f, start, par, d, n.key).depth >= 0 && Rooted(nodes, n.key, Place(f, start, par, d, n.key).depth)
  {
    var Node(k, kids, next) := f;
    ListedIsRooted(nodes, k, par, d);
    if n.key == k {
    } else if Has(kids, n.key) {
      NumberedAsListed(kids, nodes, start + 1, Some(k), d + 1, n);
    } else {
      NumberedAsListed(next, nodes, start + 2 * Size(kids) + 2, par, d, n);
    }
  }

  /** The first tree stands for the first node of the list, and the later trees for the others. */
  lemma TopsStep(f: Forest, nodes: seq<NodeResult>, j: nat)
    requires f.Node? && j <= |nodes| && Tops(f) == NodeKeys(nodes[j..])
    ensures j < |nodes| && nodes[j].key == f.key && Tops(f.next) == NodeKeys(nodes[j + 1..])
  {
    assert Tops(f)[0] == f.key && Tops(f.next) == Tops(f)[1..];
    assert NodeKeys(nodes[j..])[1..] == NodeKeys(nodes[j + 1..]);
  }

  /** Neighbours in the forest are neighbours in a group. */
  lemma {:induction false} NeighboursInGroup(f: Forest, children: Groups, par: Option<Key>, j: nat, a: Key)
    returns (p: Option<Key>, i: nat)
    requires KidsFollow(f, children) && j <= |Group(children, par)|
    requires Tops(f) == NodeKeys(Group(children, par)[j..])
    requires NextSibling(f, a).Some?
    ensures i + 1 < |Group(children, p)|
    ensures Group(children, p)[i].key == a && Group(children, p)[i + 1].key == NextSibling(f, a).value
  {
    hide Group, NodeKeys;
    var Node(k, kids, next) := f;
    TopsStep(f, Group(children, par), j);
    if k == a {
      p, i := par, j;
      TopsStep(next, Group(children, par), j + 1);
    } else if Has(kids, a) {
      assert Group(children, Some(k))[0..] == Group(children, Some(k));
      p, i := NeighboursInGroup(kids, children, Some(k), 0, a);
    } else {
      p, i := NeighboursInGroup(next, children, par, j + 1, a);
    }
  }

  // ----- recover

  /** What `f` is to the list: it holds the nodes whose parent chain reaches null, each under its
      parent and as deep as its chain is long, with siblings in the order of the comparator. */
  ghost predicate Recovered(f: Forest, nodes: seq<NodeResult>, less: Less) {
    && Distinct(f)
    && (forall k :: Has(f, k) <==> ReachesNull(nodes, k))
    && (forall n | n in nodes && Has(f, n.key) ::
          && At(f, n.key).parent == n.spot.parent
          && At(f, n.key).depth >= 0 && Rooted(nodes, n.key, At(f, n.key).depth))
    && (forall a, b | a in nodes && b in nodes && NextSibling(f, a.key) == Some(b.key) :: !less(b, a))
  }

  lemma WalkRecovers(f: Forest, nodes: seq<NodeResult>, children: Groups, less: Less)
    requires DistinctKeys(nodes) && Grouped(children, nodes, less)
    requires Tops(f) == NodeKeys(Group(children, None)) && KidsFollow(f, children)
    ensures Recovered(f, nodes, less)
  {
    hide Rooted, KidsFollow;
    FoundUnderParent(f, nodes, children, None);
    FoundOnce(f, nodes, children, None, 0);
    forall k
      ensures Has(f, k) <==> ReachesNull(nodes, k)
    {
      if Has(f, k) {
        var t, e := LeadsToTop(f, nodes, None, 0, k);
      }
      if h: nat :| Rooted(nodes, k, h) {
        ReachedIsFound(f, nodes, children, k, h);
      }
    }
    forall n | n in nodes && Has(f, n.key)
      ensures At(f, n.key).parent == n.spot.parent
      ensures At(f, n.key).depth >= 0 && Rooted(nodes, n.key, At(f, n.key).depth)
    {
      NumberedAsListed(f, nodes, 1, None, 0, n);
    }
    forall a, b | a in nodes && b in nodes && NextSibling(f, a.key) == Some(b.key)
      ensures !less(b, a)
    {
      SiblingsInOrder(f, nodes, children, less, a, b);
    }
  }

  lemma SiblingsInOrder(f: Forest, nodes: seq<NodeResult>, children: Groups, less: Less, a: NodeResult, b: NodeResult)
    requires DistinctKeys(nodes) && Grouped(children, nodes, less)
    requires Tops(f) == NodeKeys(Group(children, None)) && KidsFollow(f, children)
    requires a in nodes && b in nodes && NextSibling(f, a.key) == Some(b.key)
    ensures !less(b, a)
  {
    hide KidsFollow;
    assert Group(children, None)[0..] == Group(children, None);
    var p, i := NeighboursInGroup(f, children, None, 0, a.key);
    var g := Group(children, p);
    assert g[i] in g && g[i + 1] in g;
    assert g[i] == a && g[i + 1] == b;
  }

  lemma {:induction false} ChildrenDistinct(nodes: seq<NodeResult>, p: Option<Key>)
    requires DistinctKeys(nodes)
    ensures DistinctKeys(ChildrenOf(nodes, p))
  {
    if nodes != [] {
      var init := nodes[..|nodes| - 1];
      ChildrenDistinct(init, p);
      forall i | 0 <= i < |ChildrenOf(init, p)|
        ensures ChildrenOf(init, p)[i].key != nodes[|nodes| - 1].key
      {
        ChildrenAre(init, p, ChildrenOf(init, p)[i]);
        var j :| 0 <= j < |init| && init[j] == ChildrenOf(init, p)[i];
      }
    }
  }

  lemma SortedAreGrouped(nodes: seq<NodeResult>, groups: Groups, sorted: Groups, less: Less)
    requires DistinctKeys(nodes) && forall p :: Group(groups, p) == ChildrenOf(nodes, p)
    requires sorted.Keys == groups.Keys
    requires forall p | p in groups :: multiset(sorted[p]) == multiset(groups[p]) && Ascending(sorted[p], less)
    requires forall p | p in groups :: DistinctKeys(groups[p]) ==> DistinctKeys(sorted[p])
    ensures Grouped(sorted, nodes, less)
  {
    hide ChildrenOf;
    forall p
      ensures DistinctKeys(Group(sorted, p))
      ensures Ascending(Group(sorted, p), less)
    {
      ChildrenDistinct(nodes, p);
    }
    forall p, n
      ensures n in Group(sorted, p) <==> n in nodes && n.spot.parent == p
    {
      ChildrenAre(nodes, p, n);
      assert n in Group(sorted, p) <==> n in multiset(Group(sorted, p));
      assert n in Group(groups, p) <==> n in multiset(Group(groups, p));
    }
  }

  // ----- reading the updates

  lemma {:induction false} UpdatesPlace(f: Forest, start: int, par: Option<Key>, d: int, u: RecoverUpdate)
    requires Distinct(f)
    ensures u in Updates(f, start, d) <==>
              && Has(f, u.key)
              && u == RecoverUpdate(u.key, Place(f, start, par, d, u.key).lft,
                                    Place(f, start, par, d, u.key).rght, Place(f, start, par, d, u.key).depth)
  {
    match f
    case Nil =>
    case Node(k, kids, next) =>
      UpdatesPlace(kids, start + 1, Some(k), d + 1, u);
      UpdatesPlace(next, start + 2 * Size(kids) + 2, par, d, u);
  }

  ghost predicate OncePerKey(us: seq<RecoverUpdate>) {
    forall i, j | 0 <= i < j < |us| :: us[i].key != us[j].key
  }

  lemma {:induction false} UpdatesOnce(f: Forest, start: int, d: int)
    requires Distinct(f)
    ensures |Updates(f, start, d)| == Size(f) && OncePerKey(Updates(f, start, d))
  {
    match f
    case Nil =>
    case Node(k, kids, next) =>
      var base := start + 2 * Size(kids) + 2;
      var a, b := Updates(kids, start + 1, d + 1), Updates(next, base, d);
      UpdatesOnce(kids, start + 1, d + 1);
      UpdatesOnce(next, base, d);
      forall i | 0 <= i < |a|
        ensures Has(kids, a[i].key)
      {
        UpdatesPlace(kids, start + 1, Some(k), d + 1, a[i]);
      }
      forall i | 0 <= i < |b|
        ensures Has(next, b[i].key)
      {
        UpdatesPlace(next, base, None, d, b[i]);
      }
  }

  /** Terminates on every list with distinct keys, cyclic and dangling parents included. */
  method Recover(nodes: seq<NodeResult>, less: Less) returns (updates: seq<RecoverUpdate>, ghost f: Forest)
    requires DistinctKeys(nodes) && StrictWeak(less)
    ensures updates == Updates(f, 1, 0) && Recovered(f, nodes, less)
  {
    hide DistinctKeys, StrictWeak, Recovered;
    var groups := GroupByParent(nodes);
    var children := SortGroups(groups, less);
    SortedAreGrouped(nodes, groups, children, less);
    var right;
    right, updates, f := Traverse(children, None, 1, 0, [], nodes, {});
    WalkRecovers(f, nodes, children, less);
  }
}
