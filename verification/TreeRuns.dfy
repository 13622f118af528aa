/** Whole runs of a tree manager: any sequence of operations, each on a freshly read node. */
module TreeRuns {
  import opened Wrappers
  import opened Forests
  import opened NestedSets
  import opened NestedSetSurgery
  import opened TreeTables
  import opened TreeRefinement
  import opened Intervals
  import opened TreeManagers

  datatype Operation =
    | Insert(parent: Option<Key>, key: Key, columns: map<string, int>)
    | Delete(key: Key)
    | Move(key: Key, parent: Option<Key>)
    | Remove(key: Key)
    | Down(key: Key)
    | Up(key: Key)

  /** The forest operation that stands behind a call. A call that the manager rejects, or whose
      node is not there to be read, is none. */
  ghost function Step(f: Forest, op: Operation): Forest {
    match op
    case Insert(parent, k, _) => if ParentIn(f, parent) then Attach(f, parent, Leaf(k)) else f
    case Delete(k) => Cut.On(f, k)
    case Move(k, parent) => if Has(f, k) && MayHang(f, k, parent) then Transplant(f, k, parent) else f
    case Remove(k) => if Has(f, k) then Retire(f, k) else f
    case Down(k) => SwapWithNext.On(f, k)
    case Up(k) => match PreviousSibling(f, k) case None => f case Some(j) => SwapWithNext.On(f, j)
  }

  /** What the rows hold after a call: a new row what the caller gave, with the scope's values in the columns of
      the scope, and the rows that are still there what they held before. */
  ghost function StepData(data: map<Key, map<string, int>>, f: Forest, s: Scope, op: Operation)
    : map<Key, map<string, int>>
  {
    if op.Insert? && ParentIn(f, op.parent) then data[op.key := Stored(op.columns, s)]
    else map x | x in data && Has(Step(f, op), x) :: data[x]
  }

  ghost function RunData(data: map<Key, map<string, int>>, f: Forest, s: Scope, ops: seq<Operation>)
    : map<Key, map<string, int>>
    decreases |ops|
  {
    if ops == [] then data else RunData(StepData(data, f, s, ops[0]), Step(f, ops[0]), s, ops[1..])
  }

  ghost function Run(f: Forest, ops: seq<Operation>): Forest
    decreases |ops|
  {
    if ops == [] then f else Run(Step(f, ops[0]), ops[1..])
  }

  /** The exchange of `k` with its next sibling leaves all other rows alone. */
  ghost predicate SwapFits(f: Forest, k: Key) {
    var k2 := NextSibling(f, k);
    k2.Some? ==> NoneStrays(Spots(f), At(f, k), At(f, k2.value))
  }

  ghost predicate StepFits(f: Forest, op: Operation) {
    match op
    case Down(k) => SwapFits(f, k)
    case Up(k) => PreviousSibling(f, k).Some? ==> SwapFits(f, PreviousSibling(f, k).value)
    case _ => true
  }

  /** Every exchange of the run leaves all other rows alone. */
  ghost predicate RunFits(f: Forest, ops: seq<Operation>)
    decreases |ops|
  {
    ops != [] ==> StepFits(f, ops[0]) && RunFits(Step(f, ops[0]), ops[1..])
  }

  predicate NewKey(f: Forest, others: set<Key>, op: Operation) {
    op.Insert? ==> !Has(f, op.key) && op.key !in others
  }

  /** Every insert brings a key that no row has, in this scope or another. */
  ghost predicate NewKeys(f: Forest, others: set<Key>, ops: seq<Operation>)
    decreases |ops|
  {
    ops != [] ==> NewKey(f, others, ops[0]) && NewKeys(Step(f, ops[0]), others, ops[1..])
  }

  /** One call on a node read just before it. */
  method Perform(trees: TreeManager, op: Operation)
    requires trees.Valid() && StepFits(trees.forest, op) && NewKey(trees.forest, trees.Unseen().Keys, op)
    modifies trees
    ensures trees.Valid() && trees.forest == Step(old(trees.forest), op)
    ensures trees.Data() == StepData(old(trees.Data()), old(trees.forest), trees.scope, op)
    ensures trees.Unseen() == old(trees.Unseen())
  {
    hide Contents, Others, Stored;
    ghost var f := trees.forest;
    SpotsHas(f);
    DataHas(trees);
    if op.Insert? {
      NotThere(trees, op.key);
      var _ := trees.InsertAsChild(op.parent, op.key, op.columns);
      DataHas(trees);
      return;
    }
    var node := trees.GetNode(op.key);
    if node.None? {
      SiblingsOf(f, op.key);
      SurgeryAbsent(Cut, f, op.key);
      SurgeryAbsent(SwapWithNext, f, op.key);
      return;
    }
    PerformOn(trees, node.value, op);
    DataHas(trees);
  }

  /** A call on a node that is there. */
  method PerformOn(trees: TreeManager, node: NodeResult, op: Operation)
    requires trees.Valid() && StepFits(trees.forest, op) && !op.Insert? && trees.Fresh(node) && node.key == op.key
    modifies trees
    ensures trees.Valid() && trees.forest == Step(old(trees.forest), op)
    ensures trees.Data()
         == if op.Delete? then map x | x in old(trees.Data()) && Has(trees.forest, x) :: old(trees.Data())[x]
            else old(trees.Data())
    ensures trees.Unseen() == old(trees.Unseen())
  {
    hide Contents, Others;
    ghost var f := trees.forest;
    SpotsHas(f);
    match op {
      case Delete(_) => var _ := trees.DeleteSubtree(node);
      case Move(_, parent) => var _ := trees.MoveTo(node, parent);
      case Remove(_) => trees.RemoveFromTree(node);
      case Down(k) =>
        if NextSibling(f, k) == None { LastStays(f, k); }
        var _ := trees.MoveDown(node);
      case Up(k) =>
        if PreviousSibling(f, k).Some? {
          PreviousThenNext(f, PreviousSibling(f, k).value, k);
        }
        var _ := trees.MoveUp(node);
    }
  }

  lemma NotThere(trees: TreeManager, k: Key)
    requires trees.Valid() && !Has(trees.forest, k) && k !in trees.Unseen().Keys
    ensures k !in trees.rows
  {
    SpotsHas(trees.forest);
    assert k !in trees.Seen();
  }

  lemma DataHas(trees: TreeManager)
    requires trees.Valid()
    ensures forall k :: k in trees.Data() <==> Has(trees.forest, k)
  {
    SpotsHas(trees.forest);
    assert forall k :: k in trees.Data() <==> k in trees.Seen();
  }

  /** Every run keeps the gapless nested set and does to its forest what the operations say. */
  method Replay(trees: TreeManager, ops: seq<Operation>)
    requires trees.Valid() && RunFits(trees.forest, ops) && NewKeys(trees.forest, trees.Unseen().Keys, ops)
    modifies trees
    ensures trees.Valid() && trees.forest == Run(old(trees.forest), ops)
    ensures trees.Data() == RunData(old(trees.Data()), old(trees.forest), trees.scope, ops)
    ensures Gapless(trees.Seen())
    ensures trees.Unseen() == old(trees.Unseen())
  {
    for i := 0 to |ops|
      invariant trees.Valid() && trees.Unseen() == old(trees.Unseen())
      invariant Run(trees.forest, ops[i..]) == Run(old(trees.forest), ops)
      invariant RunData(trees.Data(), trees.forest, trees.scope, ops[i..])
             == RunData(old(trees.Data()), old(trees.forest), trees.scope, ops)
      invariant RunFits(trees.forest, ops[i..]) && NewKeys(trees.forest, trees.Unseen().Keys, ops[i..])
    {
      assert ops[i..][0] == ops[i] && ops[i..][1..] == ops[i + 1..];
      Perform(trees, ops[i]);
    }
    SpotsAreGapless(trees.forest);
  }

  /** A last sibling has nothing to change places with. */
  lemma {:induction false} LastStays(f: Forest, k: Key)
    requires Distinct(f) && NextSibling(f, k) == None
    ensures SwapWithNext.On(f, k) == f
  {
    match f
    case Nil =>
    case Node(key, kids, next) =>
      if key != k {
        if Has(kids, k) {
          LastStays(kids, k);
          SurgeryAbsent(SwapWithNext, next, k);
        } else {
          SurgeryAbsent(SwapWithNext, kids, k);
          LastStays(next, k);
        }
      }
  }

  function Inserts(ops: seq<Operation>): nat
    decreases |ops|
  {
    if ops == [] then 0 else (if ops[0].Insert? then 1 else 0) + Inserts(ops[1..])
  }

  lemma StepShape(f: Forest, op: Operation)
    requires Distinct(f) && (op.Insert? ==> !Has(f, op.key))
    ensures Distinct(Step(f, op))
    ensures Size(Step(f, op)) <= Size(f) + (if op.Insert? then 1 else 0)
  {
    match op
    case Insert(parent, k, _) => if ParentIn(f, parent) { AttachShape(f, parent, Leaf(k)); }
    case Delete(k) => SurgeryKeeps(Cut, f, k);
    case Move(k, parent) => if Has(f, k) && MayHang(f, k, parent) { TransplantShape(f, k, parent); }
    case Remove(k) => if Has(f, k) { RetireShape(f, k); }
    case Down(k) => SurgeryKeeps(SwapWithNext, f, k);
    case Up(k) => if PreviousSibling(f, k).Some? { SurgeryKeeps(SwapWithNext, f, PreviousSibling(f, k).value); }
  }

  lemma SurgeryKeeps(op: Surgery, f: Forest, k: Key)
    requires Distinct(f) && !op.Graft?
    ensures Distinct(op.On(f, k)) && Size(op.On(f, k)) <= Size(f)
  {
    if Has(f, k) {
      SurgeryShape(op, f, k);
    } else {
      SurgeryAbsent(op, f, k);
    }
  }

  lemma RetireShape(f: Forest, k: Key)
    requires Distinct(f) && Has(f, k)
    ensures Distinct(Retire(f, k)) && Size(Retire(f, k)) == Size(f)
  {
    RetiredItself(f, k);
    SurgeryShape(Dissolve, f, k);
    AppendShape(Dissolve.On(f, k), Leaf(k));
  }

  lemma SmallSwapFits(f: Forest, k: Key)
    requires Distinct(f) && 2 * Size(f) <= TEMP
    ensures SwapFits(f, k)
  {
    if NextSibling(f, k).Some? {
      NeighboursTouch(f, k, 1, None, 0);
      Span(f, 1, None, 0, NextSibling(f, k).value);
      SmallTablesAreSafe(f, k, NextSibling(f, k).value);
    }
  }

  /** Every run fits, as long as the scope cannot grow beyond five million rows. */
  lemma {:induction false} SmallRunsFit(f: Forest, others: set<Key>, ops: seq<Operation>)
    requires Distinct(f) && NewKeys(f, others, ops) && 2 * (Size(f) + Inserts(ops)) <= TEMP
    ensures RunFits(f, ops)
    decreases |ops|
  {
    if ops != [] {
      match ops[0] {
        case Down(k) => SmallSwapFits(f, k);
        case Up(k) => if PreviousSibling(f, k).Some? { SmallSwapFits(f, PreviousSibling(f, k).value); }
        case _ =>
      }
      StepShape(f, ops[0]);
      SmallRunsFit(Step(f, ops[0]), others, ops[1..]);
    }
  }

  /** A run from an empty scope. */
  method ReplayFromEmpty(table: Table, scope: Scope, ops: seq<Operation>) returns (trees: TreeManager)
    requires Places(table, scope) == map[]
    requires NewKeys(Nil, Others(table, scope).Keys, ops) && RunFits(Nil, ops)
    ensures trees.scope == scope && Gapless(Places(trees.rows, scope))
    ensures Represents(trees.rows, scope, Run(Nil, ops))
    ensures Contents(trees.rows, scope) == RunData(map[], Nil, scope, ops)
    ensures Others(trees.rows, scope) == Others(table, scope)
  {
    trees := new TreeManager(table, scope);
    Replay(trees, ops);
  }
}
