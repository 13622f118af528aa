/** Ordered forests: the meaning of a nested-set table.
    A forest is written in first-child / next-sibling form, so that one
    structural recursion covers both a node's children and its later siblings. */
module Forests {
  /** A primary key. */
  datatype Key = Key(id: int)

  datatype Forest = Nil | Node(key: Key, kids: Forest, next: Forest)

  predicate Has(f: Forest, k: Key) {
    match f
    case Nil => false
    case Node(key, kids, next) => k == key || Has(kids, k) || Has(next, k)
  }

  function Size(f: Forest): nat {
    match f
    case Nil => 0
    case Node(_, kids, next) => 1 + Size(kids) + Size(next)
  }

  ghost predicate Apart(f: Forest, g: Forest) {
    forall x | Has(f, x) :: !Has(g, x)
  }

  /** No key occurs twice. */
  ghost predicate Distinct(f: Forest) {
    match f
    case Nil => true
    case Node(k, kids, next) =>
      && !Has(kids, k) && !Has(next, k) && Apart(kids, next)
      && Distinct(kids) && Distinct(next)
  }

  /** The keys in the order in which a depth-first walk first meets them. */
  function PreOrder(f: Forest): seq<Key> {
    match f
    case Nil => []
    case Node(k, kids, next) => [k] + PreOrder(kids) + PreOrder(next)
  }

  /** The top-level keys, in order. */
  function Tops(f: Forest): seq<Key> {
    match f
    case Nil => []
    case Node(k, _, next) => [k] + Tops(next)
  }

  function Leaf(k: Key): Forest { Node(k, Nil, Nil) }

  /** The trees of `g` after the trees of `f`. */
  function Append(f: Forest, g: Forest): Forest {
    match f
    case Nil => g
    case Node(k, kids, next) => Node(k, kids, Append(next, g))
  }

  /** The tree rooted at `k`, alone. */
  function Subtree(f: Forest, k: Key): Forest {
    match f
    case Nil => Nil
    case Node(key, kids, next) =>
      if key == k then Node(key, kids, Nil)
      else if Has(kids, k) then Subtree(kids, k)
      else Subtree(next, k)
  }

  /** What can be done to the tree rooted at one key, seen with the siblings after it. */
  datatype Surgery =
    | Graft(g: Forest)   // `g` becomes its last children
    | Cut                // it goes, with all that is below it
    | Dissolve           // its children take its place
    | SwapWithNext       // it changes places with its next sibling, if there is one
  {
    function AtRoot(f: Forest): Forest
      requires f.Node?
    {
      match this
      case Graft(g) => Node(f.key, Append(f.kids, g), f.next)
      case Cut => f.next
      case Dissolve => Append(f.kids, f.next)
      case SwapWithNext =>
        match f.next
        case Nil => f
        case Node(key2, kids2, next2) => Node(key2, kids2, Node(f.key, f.kids, next2))
    }

    /** `f` after the surgery at `k`. */
    function On(f: Forest, k: Key): Forest {
      match f
      case Nil => Nil
      case Node(key, kids, next) =>
        if key == k then AtRoot(f) else Node(key, On(kids, k), On(next, k))
    }

    /** The surgery at `k` takes `x` out. */
    predicate Loses(f: Forest, k: Key, x: Key) {
      match this
      case Cut => Has(Subtree(f, k), x)
      case Dissolve => x == k
      case _ => false
    }

    /** The surgery brings `x` in. */
    predicate Gains(x: Key) { Graft? && Has(g, x) }

    /** What the surgery brings in is new to `f`. */
    ghost predicate FitsIn(f: Forest) {
      Graft? ==> Distinct(g) && Apart(f, g)
    }

    /** By how many rows the surgery at `k` makes the forest larger. */
    function Growth(f: Forest, k: Key): int {
      match this
      case Graft(g) => Size(g)
      case Cut => 0 - Size(Subtree(f, k))
      case Dissolve => -1
      case SwapWithNext => 0
    }
  }

  // ----- what the operations do to keys and sizes

  lemma {:induction false} AppendHas(f: Forest, g: Forest, x: Key)
    ensures Has(Append(f, g), x) <==> Has(f, x) || Has(g, x)
  {
    match f
    case Nil =>
    case Node(k, kids, next) => AppendHas(next, g, x);
  }

  lemma {:induction false} AppendShape(f: Forest, g: Forest)
    ensures Size(Append(f, g)) == Size(f) + Size(g)
    ensures Distinct(Append(f, g)) <==> Distinct(f) && Distinct(g) && Apart(f, g)
  {
    match f
    case Nil =>
    case Node(k, kids, next) =>
      AppendShape(next, g);
      forall x
        ensures Has(Append(next, g), x) <==> Has(next, x) || Has(g, x)
      {
        AppendHas(next, g, x);
      }
  }

  lemma {:induction false} SubtreeShape(f: Forest, k: Key)
    ensures Subtree(f, k).Node? <==> Has(f, k)
    ensures Has(f, k) ==> Subtree(f, k).key == k && Subtree(f, k).next == Nil
    ensures Distinct(f) ==> Distinct(Subtree(f, k))
  {
    match f
    case Nil =>
    case Node(key, kids, next) =>
      SubtreeShape(kids, k);
      SubtreeShape(next, k);
  }

  lemma {:induction false} SubtreeHas(f: Forest, k: Key, x: Key)
    requires Has(Subtree(f, k), x)
    ensures Has(f, k) && Has(f, x)
  {
    var Node(key, kids, next) := f;
    if key == k {
    } else if Has(kids, k) {
      SubtreeHas(kids, k, x);
    } else {
      SubtreeHas(next, k, x);
    }
  }

  lemma {:induction false} SurgeryAbsent(op: Surgery, f: Forest, k: Key)
    requires !Has(f, k)
    ensures op.On(f, k) == f
  {
    match f
    case Nil =>
    case Node(key, kids, next) =>
      SurgeryAbsent(op, kids, k);
      SurgeryAbsent(op, next, k);
  }

  /** What surgery does to the keys. */
  lemma {:induction false} SurgeryHas(op: Surgery, f: Forest, k: Key, x: Key)
    requires Distinct(f) && Has(f, k)
    ensures Has(op.On(f, k), x) <==> (Has(f, x) && !op.Loses(f, k, x)) || op.Gains(x)
  {
    var Node(key, kids, next) := f;
    if key == k {
      match op
      case Graft(g) => AppendHas(kids, g, x);
      case Cut =>
        assert Has(Node(key, kids, Nil), x) <==> x == key || Has(kids, x);
      case Dissolve => AppendHas(kids, next, x);
      case SwapWithNext =>
    } else if Has(kids, k) {
      SurgeryAbsent(op, next, k);
      SurgeryHas(op, kids, k, x);
      if Has(Subtree(kids, k), x) { SubtreeHas(kids, k, x); }
    } else {
      SurgeryAbsent(op, kids, k);
      SurgeryHas(op, next, k, x);
      if Has(Subtree(next, k), x) { SubtreeHas(next, k, x); }
    }
  }

  /** What surgery does to the distinctness of the keys and to the size. */
  lemma {:induction false} SurgeryShape(op: Surgery, f: Forest, k: Key)
    requires Distinct(f) && Has(f, k) && op.FitsIn(f)
    ensures Distinct(op.On(f, k))
    ensures Size(op.On(f, k)) == Size(f) + op.Growth(f, k)
  {
    var Node(key, kids, next) := f;
    if key == k {
      match op
      case Graft(g) =>
        AppendShape(kids, g);
        forall x ensures Has(Append(kids, g), x) <==> Has(kids, x) || Has(g, x) { AppendHas(kids, g, x); }
      case Cut =>
        assert Size(Node(key, kids, Nil)) == 1 + Size(kids);
      case Dissolve => AppendShape(kids, next);
      case SwapWithNext => if next.Node? { SwapDistinct(f); }
    } else if Has(kids, k) {
      SurgeryAbsent(op, next, k);
      SurgeryShape(op, kids, k);
      forall x ensures Has(op.On(kids, k), x) ==> Has(kids, x) || op.Gains(x) { SurgeryHas(op, kids, k, x); }
    } else {
      SurgeryAbsent(op, kids, k);
      SurgeryShape(op, next, k);
      forall x ensures Has(op.On(next, k), x) ==> Has(next, x) || op.Gains(x) { SurgeryHas(op, next, k, x); }
    }
  }

  lemma SwapDistinct(f: Forest)
    requires Distinct(f) && f.Node? && f.next.Node?
    ensures Distinct(SwapWithNext.AtRoot(f))
    ensures Size(SwapWithNext.AtRoot(f)) == Size(f)
  {
    var Node(a, kids, Node(b, kids', rest)) := f;
    assert Distinct(Node(a, kids, rest));
    forall x | Has(kids', x)
      ensures !Has(Node(a, kids, rest), x)
    {
      assert Has(f.next, x);
    }
  }

  lemma {:induction false} PreOrderHas(f: Forest, x: Key)
    ensures x in PreOrder(f) <==> Has(f, x)
  {
    match f
    case Nil =>
    case Node(k, kids, next) =>
      PreOrderHas(kids, x);
      PreOrderHas(next, x);
  }
}
