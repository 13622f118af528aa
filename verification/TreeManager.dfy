/** The tree manager: mutators that change the table statement by statement. Between two
    statements of one mutator the table holds no forest; before and after it does. */
module TreeManagers {
  import opened Wrappers
  import opened Forests
  import opened NestedSets
  import opened NestedSetSurgery
  import opened TreeTables
  import opened TreeRefinement
  import opened Intervals
  import opened Sorting
  import opened TreeRecovery
  import opened TreeValidation
  import opened TreeThreading

  datatype Error = ParentNotFound | BelowItself

  class TreeManager {
    var rows: Table
    const scope: Scope
    /** What the rows in scope stand for. */
    ghost var forest: Forest

    /** The rows in scope hold `forest`, gapless. */
    ghost predicate Valid()
      reads this
    {
      Represents(rows, scope, forest)
    }

    ghost function Seen(): map<Key, Spot>
      reads this
    {
      Places(rows, scope)
    }

    /** What the rows in scope hold besides their places. */
    ghost function Data(): map<Key, map<string, int>>
      reads this
    {
      Contents(rows, scope)
    }

    ghost function Unseen(): Table
      reads this
    {
      Others(rows, scope)
    }

    /** The node was read from the table as it is now. */
    ghost predicate Fresh(node: NodeResult)
      reads this
    {
      node.key in Seen() && Seen()[node.key] == node.spot
    }

    /** A manager over a table that has no row in scope. */
    constructor (table: Table, scope: Scope)
      requires Places(table, scope) == map[]
      ensures Valid() && forest == Nil && rows == table && this.scope == scope
    {
      rows := table;
      this.scope := scope;
      forest := Nil;
    }

    // ----- statements

    method AddToRght(least: int, delta: int)
      modifies this`rows
      ensures Seen() == map k | k in old(Seen()) ::
                          if old(Seen())[k].rght >= least
                          then old(Seen())[k].(rght := old(Seen())[k].rght + delta) else old(Seen())[k]
      ensures Unseen() == old(Unseen()) && rows.Keys == old(rows.Keys) && Data() == old(Data())
    {
      hide InScope, Contents, Others;
      var f := (p: Spot) => if p.rght >= least then p.(rght := p.rght + delta) else p;
      UpdateMaps(rows, scope, f);
      rows := Update(rows, scope, f);
    }

    method AddToLft(least: int, delta: int)
      modifies this`rows
      ensures Seen() == map k | k in old(Seen()) ::
                          if old(Seen())[k].lft >= least
                          then old(Seen())[k].(lft := old(Seen())[k].lft + delta) else old(Seen())[k]
      ensures Unseen() == old(Unseen()) && rows.Keys == old(rows.Keys) && Data() == old(Data())
    {
      hide InScope, Contents, Others;
      var f := (p: Spot) => if p.lft >= least then p.(lft := p.lft + delta) else p;
      UpdateMaps(rows, scope, f);
      rows := Update(rows, scope, f);
    }

    method ShiftForInsert(point: int, width: int)
      modifies this`rows
      ensures Seen() == Edited(old(Seen()), Open(point, width))
      ensures Unseen() == old(Unseen()) && rows.Keys == old(rows.Keys) && Data() == old(Data())
    {
      hide InScope, Contents, Others;
      AddToRght(point, width);
      ghost var between := Seen();
      AddToLft(point, width);
      OpenedBy(old(Seen()), between, Seen(), point, width);
    }

    /** A boundary above `last` is one that is at least `last + 1`. */
    method ShiftForDelete(last: int, width: int)
      modifies this`rows
      ensures Seen() == Edited(old(Seen()), Close(last, width))
      ensures Unseen() == old(Unseen()) && rows.Keys == old(rows.Keys) && Data() == old(Data())
    {
      hide InScope, Contents, Others;
      AddToLft(last + 1, -width);
      ghost var between := Seen();
      AddToRght(last + 1, -width);
      ClosedBy(old(Seen()), between, Seen(), last, width);
    }

    method MoveRange(lft: int, rght: int, delta: int, deeper: int)
      modifies this`rows
      ensures Seen() == Carried(old(Seen()), lft, rght, delta, deeper)
      ensures Unseen() == old(Unseen()) && rows.Keys == old(rows.Keys) && Data() == old(Data())
    {
      hide InScope, Contents, Others;
      var f := (p: Spot) => Carry(p, lft, rght, delta, deeper);
      UpdateMaps(rows, scope, f);
      rows := Update(rows, scope, f);
    }

    method PromoteChildren(from: Key, to: Option<Key>)
      modifies this`rows
      ensures Seen() == Rehung(old(Seen()), from, to)
      ensures Unseen() == old(Unseen()) && rows.Keys == old(rows.Keys) && Data() == old(Data())
    {
      hide InScope, Contents, Others;
      var f := (p: Spot) => Rehang(p, from, to);
      UpdateMaps(rows, scope, f);
      rows := Update(rows, scope, f);
    }

    method SetSpot(k: Key, spot: Spot)
      requires k in Seen()
      modifies this`rows
      ensures Seen() == old(Seen())[k := spot]
      ensures Unseen() == old(Unseen()) && rows.Keys == old(rows.Keys) && Data() == old(Data())
    {
      UpdateOneSets(rows, scope, k, spot);
      rows := UpdateOne(rows, scope, k, spot);
    }

    method SetBoundaries(u: RecoverUpdate)
      requires u.key in Seen()
      modifies this`rows
      ensures Seen() == old(Seen())[u.key := Spot(u.lft, u.rght, old(Seen())[u.key].parent, u.depth)]
      ensures Unseen() == old(Unseen()) && rows.Keys == old(rows.Keys) && Data() == old(Data())
    {
      SetSpot(u.key, Spot(u.lft, u.rght, rows[u.key].spot.parent, u.depth));
    }

    // ----- queries

    method GetNode(k: Key) returns (node: Option<NodeResult>)
      ensures node == if k in Seen() then Some(NodeResult(k, Seen()[k])) else None
    {
      if k in rows && InScope(scope, rows[k].columns) {
        node := Some(NodeResult(k, rows[k].spot));
      } else {
        node := None;
      }
    }

    /** SELECT MAX(rght), where an empty selection counts as 0. */
    method MaxRght() returns (r: int)
      ensures IsMaxRght(Seen(), r)
    {
      var m := Places(rows, scope);
      var todo := m.Keys;
      r := 0;
      var found := false;
      while todo != {}
        invariant todo <= m.Keys
        invariant found <==> todo != m.Keys
        invariant !found ==> r == 0
        invariant found ==> (exists k :: k in m && m[k].rght == r) && forall k | k in m && k !in todo :: m[k].rght <= r
      {
        var k :| k in todo;
        if !found || m[k].rght > r {
          r := m[k].rght;
        }
        found := true;
        todo := todo - {k};
      }
    }

    // ----- mutators

    method InsertAsChild(parent: Option<Key>, k: Key, columns: map<string, int>) returns (r: Result<Key, Error>)
      requires Valid() && k !in rows
      modifies this
      ensures Valid()
      ensures r == if ParentIn(old(forest), parent) then Ok(k) else Err(ParentNotFound)
      ensures forest == if r.Ok? then Attach(old(forest), parent, Leaf(k)) else old(forest)
      ensures Unseen() == old(Unseen())
      ensures rows.Keys == if r.Ok? then old(rows.Keys) + {k} else old(rows.Keys)
      ensures Data() == if r.Ok? then old(Data())[k := Stored(columns, scope)] else old(Data())
    {
      hide Place, PreOrder, Distinct, Edit.Apply, InScope, Contents, Others, Stored;
      var spot;
      SpotsHas(forest);
      match parent {
        case None =>
          var m := MaxRght();
          MaxIsLast(forest, m);
          NothingToOpen(forest, 2);
          spot := Spot(m + 1, m + 2, None, 0);
        case Some(p) =>
          var node := GetNode(p);
          if node.None? {
            return Err(ParentNotFound);
          }
          var at := node.value.spot;
          ShiftForInsert(at.rght, 2);
          spot := Spot(at.rght, at.rght + 1, parent, at.depth + 1);
      }
      SpotsAfterLeaf(forest, parent, k);
      InsertAdds(rows, scope, k, spot, columns);
      rows := Insert(rows, scope, k, spot, columns);
      forest := Attach(forest, parent, Leaf(k));
      r := Ok(k);
    }

    method DeleteSubtree(node: NodeResult) returns (count: int)
      requires Valid() && Fresh(node)
      modifies this
      ensures Valid()
      ensures forest == Cut.On(old(forest), node.key)
      ensures count == Size(Subtree(old(forest), node.key))
      ensures Unseen() == old(Unseen()) && rows.Keys <= old(rows.Keys)
      ensures Data() == map x | x in old(Data()) && Has(forest, x) :: old(Data())[x]
    {
      hide Place, PreOrder, Distinct, Edit.Apply, InScope, Subtree, Contents, Others;
      var at := node.spot;
      var width := at.rght - at.lft + 1;
      ghost var f := forest;
      CutFacts(f, node.key);
      DeleteSpanDrops(rows, scope, at.lft, at.rght);
      rows := DeleteSpan(rows, scope, at.lft, at.rght);
      ShiftForDelete(at.rght, width);
      forest := Cut.On(f, node.key);
      SpotsHas(forest);
      count := width / 2;
    }

    /** Isolate the subtree below zero, close its gap, open a gap at the target, put it there. */
    method MoveSubtree(node: NodeResult, target: int, parent: Option<Key>, depth: int)
      requires Fresh(node) && target >= 1
      requires Positive(Seen())
      modifies this`rows
      ensures var moved := Relocated(old(Seen()), node.spot, target, depth);
              Seen() == moved[node.key := moved[node.key].(parent := parent)]
      ensures Unseen() == old(Unseen()) && rows.Keys == old(rows.Keys) && Data() == old(Data())
    {
      hide Carry, Relocate, Edit.Apply, InScope;
      var at := node.spot;
      var width := at.rght - at.lft + 1;
      var isolate := -TEMP - at.rght;
      MoveComposed(Seen(), at, isolate, target, depth);
      MoveRange(at.lft, at.rght, isolate, 0);
      ShiftForDelete(at.rght, width);
      ShiftForInsert(target, width);
      MoveRange(at.lft + isolate, at.rght + isolate, target - at.lft - isolate, depth - at.depth);
      SetSpot(node.key, rows[node.key].spot.(parent := parent));
    }

    method MoveTo(node: NodeResult, parent: Option<Key>) returns (r: Result<(), Error>)
      requires Valid() && Fresh(node)
      modifies this
      ensures Valid()
      ensures r == if !ParentIn(old(forest), parent) then Err(ParentNotFound)
                   else if !MayHang(old(forest), node.key, parent) then Err(BelowItself)
                   else Ok(())
      ensures forest == if r.Ok? then Transplant(old(forest), node.key, parent) else old(forest)
      ensures r.Err? ==> rows == old(rows)
      ensures Unseen() == old(Unseen()) && rows.Keys == old(rows.Keys) && Data() == old(Data())
    {
      hide Place, PreOrder, Distinct, Relocate, InScope, Subtree, Transplant, Contents, Others;
      var at := node.spot;
      var width := at.rght - at.lft + 1;
      var target, depth := 0, 0;
      ghost var f := forest;
      SpotsHas(f);
      SpotsPositive(f);
      match parent {
        case None =>
          var m := MaxRght();
          MaxIsLast(f, m);
          target := m + 1;
        case Some(p) =>
          var found := GetNode(p);
          if found.None? {
            return Err(ParentNotFound);
          }
          var up := found.value.spot;
          GuardIsSubtree(f, node.key, p);
          if (up.lft > at.lft && up.rght < at.rght) || (up.lft == at.lft && up.rght == at.rght) {
            return Err(BelowItself);
          }
          target := up.rght;
          depth := up.depth + 1;
      }
      if target > at.rght {
        target := target - width;
      }
      TargetAfterCut(f, node.key, parent);
      MoveSubtree(node, target, parent, depth);
      SpotsAfterMove(f, node.key, parent);
      forest := Transplant(f, node.key, parent);
      r := Ok(());
    }

    method RemoveFromTree(node: NodeResult)
      requires Valid() && Fresh(node)
      modifies this
      ensures Valid()
      ensures forest == Retire(old(forest), node.key)
      ensures Unseen() == old(Unseen()) && rows.Keys == old(rows.Keys) && Data() == old(Data())
    {
      hide Place, PreOrder, Distinct, Carry, Edit.Apply, InScope, Rehang, Retire, Contents, Others;
      var k, at := node.key, node.spot;
      ghost var f, m := forest, Seen();
      SpotsPositive(f);
      var last := MaxRght();
      MaxIsLast(f, last);
      PromoteChildren(k, at.parent);
      ghost var m1 := Seen();
      if at.rght - at.lft > 1 {
        MoveRange(at.lft + 1, at.rght - 1, -1, -1);
      }
      ghost var m2 := Seen();
      ShiftForDelete(at.rght, 2);
      SpotsHas(f);
      NobodyCrosses(f, k);
      RemoveComposed(m, m1, m2, Seen(), k, last);
      SetSpot(k, Spot(last - 1, last, None, 0));
      SpotsAfterRetire(f, k);
      forest := Retire(f, k);
    }

    /** SELECT ... WHERE where ORDER BY lft */
    method Select(where: Spot -> bool) returns (nodes: seq<NodeResult>)
      ensures forall n :: n in nodes <==> Fresh(n) && where(n.spot)
      ensures DistinctKeys(nodes)
      ensures forall i, j | 0 <= i < j < |nodes| :: nodes[i].spot.lft <= nodes[j].spot.lft
    {
      var m := Places(rows, scope);
      var todo := set k | k in m && where(m[k]);
      nodes := [];
      while todo != {}
        invariant todo <= m.Keys && forall k | k in todo :: where(m[k])
        invariant forall n | n in nodes :: n.key in m && n.key !in todo && n.spot == m[n.key] && where(n.spot)
        invariant forall k | k in m && where(m[k]) :: k in todo || NodeResult(k, m[k]) in nodes
        invariant DistinctKeys(nodes)
        invariant forall i, j | 0 <= i < j < |nodes| :: nodes[i].spot.lft <= nodes[j].spot.lft
        invariant forall n, k | n in nodes && k in todo :: n.spot.lft <= m[k].lft
      {
        LeftmostExists(m, todo);
        var k :| k in todo && forall j | j in todo :: m[k].lft <= m[j].lft;
        nodes := nodes + [NodeResult(k, m[k])];
        todo := todo - {k};
      }
    }

    method GetSiblings(parent: Option<Key>) returns (nodes: seq<NodeResult>)
      ensures forall n :: n in nodes <==> Fresh(n) && n.spot.parent == parent
      ensures DistinctKeys(nodes)
      ensures forall i, j | 0 <= i < j < |nodes| :: nodes[i].spot.lft <= nodes[j].spot.lft
    {
      nodes := Select((p: Spot) => p.parent == parent);
    }

    /** The interval query returns exactly what lies below the node in the parent relation. */
    method GetDescendants(node: NodeResult) returns (nodes: seq<NodeResult>)
      requires Valid() && Fresh(node)
      ensures forall n :: n in nodes <==> Fresh(n) && Ancestor(Seen(), node.key, n.key)
      ensures DistinctKeys(nodes) && |nodes| == (node.spot.rght - node.spot.lft - 1) / 2
      ensures forall i, j | 0 <= i < j < |nodes| :: nodes[i].spot.lft <= nodes[j].spot.lft
    {
      nodes := Select((p: Spot) => p.lft > node.spot.lft && p.rght < node.spot.rght);
      ghost var m := Seen();
      SpotsAreGapless(forest);
      forall n
        ensures n in nodes <==> Fresh(n) && Ancestor(m, node.key, n.key)
        ensures n in nodes <==> n.key in Within(m, node.key) && n.spot == m[n.key]
      {
        if n.key in m { AncestorsAreAround(m, node.key, n.key); }
      }
      ChildCountIsDescendants(m, node.key);
      OneResultPerKey(nodes, Within(m, node.key));
    }

    /** Links the rows below the node as their parent columns say. */
    method GetDescendantsThreaded(node: NodeResult) returns (ts: seq<Threaded>)
      requires Valid() && Fresh(node)
      ensures forall n :: n in FlatAll(ts) <==> Fresh(n) && Ancestor(Seen(), node.key, n.key)
      ensures forall x, y | x in FlatAll(ts) && y in FlatAll(ts) ::
                BelowAny(ts, x, y) <==> Ancestor(Seen(), y.key, x.key)
    {
      var nodes := GetDescendants(node);
      ts := ToThreaded(nodes);
      ghost var m := Seen();
      SpotsAreGapless(forest);
      forall i, j | 0 <= i < j < |nodes|
        ensures nodes[i].spot.lft < nodes[j].spot.lft && Untangled(nodes[i].spot, nodes[j].spot)
      {
        assert nodes[i] in nodes && nodes[j] in nodes;
        assert Untangled(m[nodes[i].key], m[nodes[j].key]);
      }
      forall x, y | x in nodes && y in nodes
        ensures Inside(x.spot, y.spot) <==> Ancestor(m, y.key, x.key)
      {
        AncestorsAreAround(m, y.key, x.key);
      }
    }

    /** The interval query returns exactly what lies above the node in the parent relation,
        from the root down. */
    method GetPath(node: NodeResult, includeSelf: bool) returns (nodes: seq<NodeResult>)
      requires Valid() && Fresh(node)
      ensures forall n :: n in nodes <==> Fresh(n) && (Ancestor(Seen(), n.key, node.key) || (includeSelf && n == node))
      ensures DistinctKeys(nodes) && |nodes| == node.spot.depth + if includeSelf then 1 else 0
      ensures forall i, j | 0 <= i < j < |nodes| :: nodes[i].spot.lft <= nodes[j].spot.lft
    {
      nodes := Select((p: Spot) => if includeSelf then p.lft <= node.spot.lft && p.rght >= node.spot.rght
                                   else p.lft < node.spot.lft && p.rght > node.spot.rght);
      SpotsAreGapless(forest);
      PathFound(nodes, Seen(), node.key, includeSelf);
    }

    /** Rewrites the boundaries and depths of the rows whose parent chain reaches null, in a table
        whose boundaries may hold anything. `was` lists the rows as they were read. */
    method RecoverBoundaries(less: Less) returns (processed: nat, ghost was: seq<NodeResult>)
      requires StrictWeak(less)
      modifies this
      ensures DistinctKeys(was) && forall n :: n in was <==> n.key in old(Seen()) && old(Seen())[n.key] == n.spot
      ensures Recovered(forest, was, less) && processed == Size(forest)
      ensures Seen() == map k | k in old(Seen()) :: if Has(forest, k) then At(forest, k) else old(Seen())[k]
      ensures (forall n | n in was :: ReachesNull(was, n.key)) ==> Valid()
      ensures Unseen() == old(Unseen()) && rows.Keys == old(rows.Keys) && Data() == old(Data())
    {
      hide Recovered, Place, PreOrder, StrictWeak, Updates;
      ghost var m := Seen();
      var nodes := Select((p: Spot) => true);
      was := nodes;
      var updates;
      ghost var f;
      updates, f := Recover(nodes, less);
      RecoveredUpdates(f, nodes, m, less, updates);
      for i := 0 to |updates|
        invariant Written(m, updates[..i], Seen())
        invariant Unseen() == old(Unseen()) && rows.Keys == old(rows.Keys) && Data() == old(Data())
      {
        ghost var before := Seen();
        SetBoundaries(updates[i]);
        WrittenOneMore(m, updates, i, before, Seen());
      }
      assert updates[..|updates|] == updates;
      WrittenAll(f, nodes, m, less, updates, Seen());
      forest := f;
      processed := |updates|;
    }

    /** Reports exactly the faults of the rows in scope; a gapless nested set has none. */
    method Validate() returns (errors: seq<TreeError>, ghost nodes: seq<NodeResult>)
      requires forall a, b | a in Seen() && b in Seen() && a != b :: Seen()[a].lft != Seen()[b].lft
      ensures forall n :: n in nodes <==> Fresh(n)
      ensures forall e :: e in errors <==> Fault(nodes, e)
      ensures Valid() ==> errors == []
    {
      var rs := Select((p: Spot) => true);
      nodes := rs;
      errors := ValidateTree(rs);
      if Valid() {
        SpotsHas(forest);
        NumberingsPass(forest, rs);
        EmptyOrNot(errors);
      }
    }

    method SwapAdjacent(left: NodeResult, right: NodeResult) returns (done: bool)
      modifies this`rows
      ensures done <==> left.spot.rght < right.spot.lft
      ensures Seen() == if done then Exchanged(old(Seen()), left.spot, right.spot) else old(Seen())
      ensures Unseen() == old(Unseen()) && rows.Keys == old(rows.Keys) && Data() == old(Data())
    {
      hide *;
      var a, b := left.spot, right.spot;
      if a.rght >= b.lft {
        return false;
      }
      ExchangeComposed(Seen(), a, b);
      MoveRange(b.lft, b.rght, TEMP, 0);
      MoveRange(a.lft, a.rght, b.rght - b.lft + 1, 0);
      MoveRange(b.lft + TEMP, b.rght + TEMP, -TEMP - (a.rght - a.lft + 1), 0);
      done := true;
    }

    /** Exchanges the node with its next sibling. The table holds the result exactly if no row strays. */
    method MoveDown(node: NodeResult) returns (done: bool)
      requires Valid() && Fresh(node)
      modifies this
      ensures done <==> NextSibling(old(forest), node.key).Some?
      ensures forest == if done then SwapWithNext.On(old(forest), node.key) else old(forest)
      ensures done ==> NextSibling(old(forest), node.key).value in old(Seen())
      ensures Valid() <==>
              (done ==> NoneStrays(old(Seen()), node.spot, old(Seen())[NextSibling(old(forest), node.key).value]))
      ensures Unseen() == old(Unseen()) && rows.Keys == old(rows.Keys) && Data() == old(Data())
    {
      var siblings := GetSiblings(node.spot.parent);
      ghost var f := forest;
      SpotsHas(f);
      assert Seen() == Spots(f);
      forall x | Has(f, x) && At(f, x).parent == At(f, node.key).parent
        ensures NodeResult(x, At(f, x)) in siblings
      {
        assert Seen()[x] == At(f, x);
      }
      assert InOrder(siblings, f, node.key);
      var i := IndexOf(siblings, node);
      if i + 1 == |siblings| {
        LastHasNoNext(siblings, f, node.key, i);
        return false;
      }
      NextInOrder(siblings, f, node.key, i);
      done := SwapAdjacent(siblings[i], siblings[i + 1]);
      forest := SwapWithNext.On(f, node.key);
      SurgeryShape(SwapWithNext, f, node.key);
      ExchangeExact(f, node.key, siblings[i + 1].key);
    }

    /** Exchanges the node with the sibling before it. */
    method MoveUp(node: NodeResult) returns (done: bool)
      requires Valid() && Fresh(node)
      modifies this
      ensures done <==> PreviousSibling(old(forest), node.key).Some?
      ensures forest == if done then SwapWithNext.On(old(forest), PreviousSibling(old(forest), node.key).value)
                        else old(forest)
      ensures done ==> PreviousSibling(old(forest), node.key).value in old(Seen())
      ensures Valid() <==>
              (done ==> NoneStrays(old(Seen()), old(Seen())[PreviousSibling(old(forest), node.key).value], node.spot))
      ensures Unseen() == old(Unseen()) && rows.Keys == old(rows.Keys) && Data() == old(Data())
    {
      var siblings := GetSiblings(node.spot.parent);
      ghost var f := forest;
      SpotsHas(f);
      assert Seen() == Spots(f);
      forall x | Has(f, x) && At(f, x).parent == At(f, node.key).parent
        ensures NodeResult(x, At(f, x)) in siblings
      {
        assert Seen()[x] == At(f, x);
      }
      assert InOrder(siblings, f, node.key);
      var i := IndexOf(siblings, node);
      if i == 0 {
        FirstHasNoPrevious(siblings, f, node.key, i);
        return false;
      }
      var before := siblings[i - 1].key;
      NextInOrder(siblings, f, node.key, i - 1);
      PreviousThenNext(f, before, node.key);
      done := SwapAdjacent(siblings[i - 1], siblings[i]);
      forest := SwapWithNext.On(f, before);
      SurgeryShape(SwapWithNext, f, before);
      ExchangeExact(f, before, node.key);
    }
  }

  // ----- the two updates of a shift

  lemma OpenedBy(m: map<Key, Spot>, between: map<Key, Spot>, now: map<Key, Spot>, point: int, width: int)
    requires between == map k | k in m :: if m[k].rght >= point then m[k].(rght := m[k].rght + width) else m[k]
    requires now == map k | k in between ::
                      if between[k].lft >= point then between[k].(lft := between[k].lft + width) else between[k]
    ensures now == Edited(m, Open(point, width))
  {}

  lemma ClosedBy(m: map<Key, Spot>, between: map<Key, Spot>, now: map<Key, Spot>, last: int, width: int)
    requires between == map k | k in m :: if m[k].lft >= last + 1 then m[k].(lft := m[k].lft - width) else m[k]
    requires now == map k | k in between ::
                      if between[k].rght >= last + 1 then between[k].(rght := between[k].rght - width) else between[k]
    ensures now == Edited(m, Close(last, width))
  {}

  /** `now` is `m` with the updates written. */
  ghost predicate Written(m: map<Key, Spot>, us: seq<RecoverUpdate>, now: map<Key, Spot>) {
    && now.Keys == m.Keys
    && (forall k | k in m && (forall j | 0 <= j < |us| :: us[j].key != k) :: now[k] == m[k])
    && (forall j | 0 <= j < |us| :: us[j].key in m
          && now[us[j].key] == Spot(us[j].lft, us[j].rght, m[us[j].key].parent, us[j].depth))
  }

  lemma WrittenOneMore(m: map<Key, Spot>, us: seq<RecoverUpdate>, i: nat, before: map<Key, Spot>, now: map<Key, Spot>)
    requires i < |us| && OncePerKey(us) && us[i].key in m && Written(m, us[..i], before)
    requires now == before[us[i].key := Spot(us[i].lft, us[i].rght, before[us[i].key].parent, us[i].depth)]
    ensures Written(m, us[..i + 1], now)
  {
    forall j | 0 <= j < |us[..i]|
      ensures us[..i][j].key != us[i].key
    {}
    assert before[us[i].key] == m[us[i].key];
    var done := us[..i + 1];
    assert done == us[..i] + [us[i]];
    forall k | k in m && (forall j | 0 <= j < |done| :: done[j].key != k)
      ensures now[k] == m[k]
    {
      assert done[i].key != k;
    }
  }

  lemma RecoveredUpdates(f: Forest, nodes: seq<NodeResult>, m: map<Key, Spot>, less: Less, us: seq<RecoverUpdate>)
    requires Recovered(f, nodes, less) && us == Updates(f, 1, 0)
    requires forall n :: n in nodes <==> n.key in m && m[n.key] == n.spot
    ensures OncePerKey(us) && |us| == Size(f)
    ensures forall j | 0 <= j < |us| :: us[j].key in m
  {
    UpdatesOnce(f, 1, 0);
    forall j | 0 <= j < |us|
      ensures us[j].key in m
    {
      UpdatesPlace(f, 1, None, 0, us[j]);
      FoundAreRows(f, nodes, m, less, us[j].key);
    }
  }

  lemma FoundAreRows(f: Forest, nodes: seq<NodeResult>, m: map<Key, Spot>, less: Less, k: Key)
    requires Recovered(f, nodes, less) && Has(f, k)
    requires forall n :: n in nodes <==> n.key in m && m[n.key] == n.spot
    ensures k in m && At(f, k).parent == m[k].parent
  {
    assert ReachesNull(nodes, k);
    var h: nat :| Rooted(nodes, k, h);
    assert NodeResult(k, m[k]) in nodes;
  }

  lemma WrittenAll(f: Forest, nodes: seq<NodeResult>, m: map<Key, Spot>, less: Less,
                   us: seq<RecoverUpdate>, now: map<Key, Spot>)
    requires Recovered(f, nodes, less) && us == Updates(f, 1, 0) && Written(m, us, now)
    requires forall n :: n in nodes <==> n.key in m && m[n.key] == n.spot
    ensures now == map k | k in m :: if Has(f, k) then At(f, k) else m[k]
    ensures (forall n | n in nodes :: ReachesNull(nodes, n.key)) ==> Distinct(f) && now == Spots(f)
  {
    forall k | k in m
      ensures now[k] == if Has(f, k) then At(f, k) else m[k]
    {
      WrittenRow(f, nodes, m, less, us, now, k);
    }
    if forall n | n in nodes :: ReachesNull(nodes, n.key) {
      forall k
        ensures k in now <==> Has(f, k)
      {
        if k in m { assert NodeResult(k, m[k]) in nodes; }
        if Has(f, k) { FoundAreRows(f, nodes, m, less, k); }
      }
      SpotsAre(f, now);
    }
  }

  lemma WrittenRow(f: Forest, nodes: seq<NodeResult>, m: map<Key, Spot>, less: Less,
                   us: seq<RecoverUpdate>, now: map<Key, Spot>, k: Key)
    requires Recovered(f, nodes, less) && us == Updates(f, 1, 0) && Written(m, us, now) && k in m
    requires forall n :: n in nodes <==> n.key in m && m[n.key] == n.spot
    ensures now[k] == if Has(f, k) then At(f, k) else m[k]
  {
    hide Place, Updates, Recovered;
    if Has(f, k) {
      var u := RecoverUpdate(k, At(f, k).lft, At(f, k).rght, At(f, k).depth);
      RecoveredIsDistinct(f, nodes, less);
      UpdatesPlace(f, 1, None, 0, u);
      var j :| 0 <= j < |us| && us[j] == u;
      FoundAreRows(f, nodes, m, less, k);
    } else {
      forall j | 0 <= j < |us|
        ensures us[j].key != k
      {
        RecoveredIsDistinct(f, nodes, less);
        UpdatesPlace(f, 1, None, 0, us[j]);
      }
    }
  }

  lemma RecoveredIsDistinct(f: Forest, nodes: seq<NodeResult>, less: Less)
    requires Recovered(f, nodes, less)
    ensures Distinct(f)
  {}

  /** The rows that the path query selects. */
  ghost function OnThePath(m: map<Key, Spot>, k: Key, includeSelf: bool): map<Key, Spot>
    requires k in m
  {
    map a | a in m
            && (if includeSelf then m[a].lft <= m[k].lft && m[a].rght >= m[k].rght else Inside(m[k], m[a])) ::
      m[a]
  }

  lemma PathIsAround(m: map<Key, Spot>, k: Key, includeSelf: bool)
    requires Gapless(m) && k in m
    ensures forall a :: a in OnThePath(m, k, includeSelf) <==> a in m && (Ancestor(m, a, k) || (includeSelf && a == k))
    ensures |OnThePath(m, k, includeSelf)| == m[k].depth + if includeSelf then 1 else 0
  {
    hide Ancestor, Holds;
    forall a | a in m
      ensures a in OnThePath(m, k, includeSelf) <==> a in Around(m, k) || (includeSelf && a == k)
      ensures a in Around(m, k) <==> Ancestor(m, a, k)
    {
      AncestorsAreAround(m, a, k);
      if a != k { assert Untangled(m[a], m[k]); }
    }
    AncestorsAreRows(m, k);
    PathLength(m, k, includeSelf);
  }

  lemma OnThePathAreRows(m: map<Key, Spot>, k: Key, includeSelf: bool)
    requires k in m
    ensures forall a | a in OnThePath(m, k, includeSelf) :: a in m
  {}

  lemma PathLength(m: map<Key, Spot>, k: Key, includeSelf: bool)
    requires Gapless(m) && k in m
    requires forall a | a in m :: a in OnThePath(m, k, includeSelf) <==> a in Around(m, k) || (includeSelf && a == k)
    ensures |OnThePath(m, k, includeSelf)| == m[k].depth + if includeSelf then 1 else 0
  {
    hide OnThePath, Tiles;
    assert WellHung(m, None, 0, k);
    var path := OnThePath(m, k, includeSelf);
    OnThePathAreRows(m, k, includeSelf);
    assert k !in Around(m, k);
    assert path.Keys == Around(m, k) + if includeSelf then {k} else {};
    assert |path| == |path.Keys|;
  }

  lemma PathFound(nodes: seq<NodeResult>, m: map<Key, Spot>, k: Key, includeSelf: bool)
    requires Gapless(m) && k in m && DistinctKeys(nodes)
    requires forall n :: n in nodes <==> n.key in OnThePath(m, k, includeSelf) && n.spot == m[n.key]
    ensures forall n :: n in nodes <==>
              n.key in m && n.spot == m[n.key] && (Ancestor(m, n.key, k) || (includeSelf && n.key == k))
    ensures |nodes| == m[k].depth + if includeSelf then 1 else 0
  {
    hide Gapless, Ancestor;
    PathIsAround(m, k, includeSelf);
    OneResultPerKey(nodes, OnThePath(m, k, includeSelf));
  }

  lemma AncestorsAreRows(m: map<Key, Spot>, k: Key)
    ensures forall a | Ancestor(m, a, k) :: a in m
  {}

  lemma {:induction false} OneResultPerKey(nodes: seq<NodeResult>, m: map<Key, Spot>)
    requires DistinctKeys(nodes) && forall n :: n in nodes <==> n.key in m && n.spot == m[n.key]
    ensures |nodes| == |m|
  {
    if nodes == [] {
      assert forall k | k in m :: NodeResult(k, m[k]) in nodes;
      assert m.Keys == {};
    } else {
      var last := nodes[|nodes| - 1];
      var init := nodes[..|nodes| - 1];
      assert nodes == init + [last];
      OneResultPerKey(init, m - {last.key});
      assert m.Keys == (m - {last.key}).Keys + {last.key};
    }
  }

  method IndexOf(nodes: seq<NodeResult>, node: NodeResult) returns (i: int)
    requires node in nodes
    ensures 0 <= i < |nodes| && nodes[i] == node
  {
    i := 0;
    while nodes[i] != node
      invariant 0 <= i < |nodes|
      invariant node in nodes[i..]
      decreases |nodes| - i
    {
      i := i + 1;
    }
  }

  lemma LeftmostExists(m: map<Key, Spot>, ks: set<Key>)
    requires ks != {} && ks <= m.Keys
    ensures exists k :: k in ks && forall j | j in ks :: m[k].lft <= m[j].lft
  {
    var k :| k in ks;
    if ks != {k} {
      LeftmostExists(m, ks - {k});
      var l :| l in ks - {k} && forall j | j in ks - {k} :: m[l].lft <= m[j].lft;
      assert m[k].lft <= m[l].lft ==> forall j | j in ks :: m[k].lft <= m[j].lft;
      assert m[l].lft <= m[k].lft ==> forall j | j in ks :: m[l].lft <= m[j].lft;
    }
  }

  /** The rows that hang where `k` hangs, by left boundary. */
  ghost predicate InOrder(nodes: seq<NodeResult>, f: Forest, k: Key) {
    && (forall i | 0 <= i < |nodes| ::
          Has(f, nodes[i].key) && nodes[i].spot == At(f, nodes[i].key) && nodes[i].spot.parent == At(f, k).parent)
    && (forall x | Has(f, x) && At(f, x).parent == At(f, k).parent :: NodeResult(x, At(f, x)) in nodes)
    && (forall i, j | 0 <= i < j < |nodes| :: nodes[i].key != nodes[j].key && nodes[i].spot.lft <= nodes[j].spot.lft)
  }

  lemma NextInOrder(nodes: seq<NodeResult>, f: Forest, k: Key, i: int)
    requires Distinct(f) && InOrder(nodes, f, k) && 0 <= i < |nodes| - 1
    ensures NextSibling(f, nodes[i].key) == Some(nodes[i + 1].key)
    ensures nodes[i].spot.rght < nodes[i + 1].spot.lft
  {
    var a, b := nodes[i].key, nodes[i + 1].key;
    Span(f, 1, None, 0, a);
    Span(f, 1, None, 0, b);
    NeverCross(f, 1, None, 0, a, b);
    forall c | Has(f, c) && At(f, c).parent == At(f, a).parent
      ensures At(f, c).lft <= At(f, a).lft || At(f, b).lft <= At(f, c).lft
    {
      var j :| 0 <= j < |nodes| && nodes[j] == NodeResult(c, At(f, c));
      assert j <= i || i + 1 <= j;
    }
    ConsecutiveAreNeighbours(f, 1, None, 0, a, b);
    NeighboursTouch(f, a, 1, None, 0);
  }

  lemma LastHasNoNext(nodes: seq<NodeResult>, f: Forest, k: Key, i: int)
    requires Distinct(f) && InOrder(nodes, f, k)
    requires i == |nodes| - 1 >= 0 && nodes[i].key == k
    ensures NextSibling(f, k) == None
  {
    if NextSibling(f, k).Some? {
      NeighboursTouch(f, k, 1, None, 0);
      var b := NextSibling(f, k).value;
      var j :| 0 <= j < |nodes| && nodes[j] == NodeResult(b, At(f, b));
    }
  }

  lemma FirstHasNoPrevious(nodes: seq<NodeResult>, f: Forest, k: Key, i: int)
    requires Distinct(f) && InOrder(nodes, f, k)
    requires i == 0 < |nodes| && nodes[i].key == k
    ensures PreviousSibling(f, k) == None
  {
    if PreviousSibling(f, k).Some? {
      var a := PreviousSibling(f, k).value;
      PreviousThenNext(f, a, k);
      NeighboursTouch(f, a, 1, None, 0);
      var j :| 0 <= j < |nodes| && nodes[j] == NodeResult(a, At(f, a));
    }
  }
}
