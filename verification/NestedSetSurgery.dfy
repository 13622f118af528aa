/** How surgery on a forest renumbers its rows, one row at a time.
    Every operation edits the numbering inside one region of boundary positions, keeps what
    is left of the region and slides what is right of it, so each proof is its own case at
    the place of surgery and the two lifting lemmas on the way down to it. */
module NestedSetSurgery {
  import opened Wrappers
  import opened Forests
  import opened NestedSets

  datatype Edit =
    | Open(point: int, width: int)   // a gap of `width` positions appears before `point`
    | Close(last: int, width: int)   // the `width` positions up to `last` vanish
    | Unwrap(k: Key, at: Spot)       // the two boundaries of `k`, placed `at`, vanish
    | Swap(a: Spot, b: Spot)         // the touching spans of `a` and then `b` change places
  {
    /** Where boundary `x` goes. */
    function Shift(x: int): int {
      match this
      case Open(point, width) => if x >= point then x + width else x
      case Close(last, width) => if x > last then x - width else x
      case Unwrap(_, at) => if x > at.rght then x - 2 else if x > at.lft then x - 1 else x
      case Swap(a, b) =>
        if a.lft <= x <= a.rght then x + (b.rght - b.lft + 1)
        else if b.lft <= x <= b.rght then x - (a.rght - a.lft + 1)
        else x
    }

    /** The first position that the edit touches. */
    function Lo(): int {
      match this
      case Open(point, _) => point
      case Close(last, width) => last - width + 1
      case Unwrap(_, at) => at.lft
      case Swap(a, _) => a.lft
    }

    /** The position from which on everything slides. */
    function Hi(): int {
      match this
      case Open(point, _) => point
      case Close(last, _) => last + 1
      case Unwrap(_, at) => at.rght + 1
      case Swap(_, b) => b.rght + 1
    }

    /** How far it slides. */
    function Slide(): int {
      match this
      case Open(_, width) => width
      case Close(_, width) => -width
      case Unwrap(_, _) => -2
      case Swap(_, _) => 0
    }

    /** Where the row at `s` goes. */
    function Apply(s: Spot): Spot {
      var moved := s.(lft := Shift(s.lft), rght := Shift(s.rght));
      if Unwrap? then
        moved.(parent := if s.parent == Some(k) then at.parent else s.parent,
               depth := if at.lft < s.lft < at.rght then s.depth - 1 else s.depth)
      else moved
    }

    /** The edit is about rows of `f` numbered from `start`. */
    ghost predicate Within(f: Forest, start: int) {
      && start <= Lo() <= Hi() <= start + 2 * Size(f)
      && (Unwrap? ==> Has(f, k) && at.lft < at.rght)
      && (Swap? ==> a.lft <= a.rght < b.lft <= b.rght)
    }
  }

  /** An edit among the children of the first tree reaches the whole forest. */
  lemma EditBelow(e: Edit, key: Key, kids: Forest, kids': Forest, next: Forest,
                  start: int, par: Option<Key>, d: int, x: Key)
    requires Distinct(Node(key, kids, next)) && e.Within(kids, start + 1)
    requires par.Some? ==> !Has(kids, par.value)
    requires 2 * Size(kids') == 2 * Size(kids) + e.Slide()
    requires Has(Node(key, kids, next), x)
    requires Has(kids, x) <==> Has(kids', x)
    requires Has(kids, x) ==>
               Place(kids', start + 1, Some(key), d + 1, x) == e.Apply(Place(kids, start + 1, Some(key), d + 1, x))
    ensures Place(Node(key, kids', next), start, par, d, x)
         == e.Apply(Place(Node(key, kids, next), start, par, d, x))
  {
    if x == key {
      EditOfRoot(e, key, kids, kids', next, start, par, d);
    } else if Has(kids, x) {
      assert Place(Node(key, kids', next), start, par, d, x) == Place(kids', start + 1, Some(key), d + 1, x);
    } else {
      EditOfNext(e, key, kids, kids', next, start, par, d, x);
    }
  }

  lemma EditOfRoot(e: Edit, key: Key, kids: Forest, kids': Forest, next: Forest, start: int, par: Option<Key>, d: int)
    requires e.Within(kids, start + 1)
    requires par.Some? ==> !Has(kids, par.value)
    requires 2 * Size(kids') == 2 * Size(kids) + e.Slide()
    ensures Place(Node(key, kids', next), start, par, d, key)
         == e.Apply(Place(Node(key, kids, next), start, par, d, key))
  {
    StretchesAround(e, Place(Node(key, kids, next), start, par, d, key));
  }

  lemma EditOfNext(e: Edit, key: Key, kids: Forest, kids': Forest, next: Forest,
                   start: int, par: Option<Key>, d: int, x: Key)
    requires Distinct(Node(key, kids, next)) && e.Within(kids, start + 1)
    requires par.Some? ==> !Has(kids, par.value)
    requires 2 * Size(kids') == 2 * Size(kids) + e.Slide()
    requires Has(next, x) && !Has(kids', x)
    ensures Place(Node(key, kids', next), start, par, d, x)
         == e.Apply(Place(Node(key, kids, next), start, par, d, x))
  {
    hide Edit.Apply, Size;
    var base := start + 2 * Size(kids) + 2;
    assert Place(Node(key, kids, next), start, par, d, x) == Place(next, base, par, d, x);
    assert Place(Node(key, kids', next), start, par, d, x) == Place(next, base + e.Slide(), par, d, x);
    SlidesWhole(e, next, base, par, d, x);
  }

  /** Trees right of the region slide. */
  lemma SlidesWhole(e: Edit, f: Forest, start: int, par: Option<Key>, d: int, x: Key)
    requires Distinct(f) && Has(f, x) && e.Lo() <= e.Hi() <= start
    requires e.Unwrap? ==> !Has(f, e.k) && par != Some(e.k) && e.at.lft < e.at.rght
    requires e.Swap? ==> e.a.lft <= e.a.rght < e.b.lft <= e.b.rght
    ensures Place(f, start + e.Slide(), par, d, x) == e.Apply(Place(f, start, par, d, x))
  {
    Span(f, start, par, d, x);
    Rebase(f, start, par, d, start + e.Slide(), par, d, x);
    SlidesBeyond(e, Place(f, start, par, d, x));
  }

  /** A row wholly around the region stretches. */
  lemma StretchesAround(e: Edit, s: Spot)
    requires s.lft < e.Lo() <= e.Hi() <= s.rght
    requires e.Unwrap? ==> s.parent != Some(e.k) && e.at.lft < e.at.rght
    requires e.Swap? ==> e.a.lft <= e.a.rght < e.b.lft <= e.b.rght
    ensures e.Apply(s) == s.(rght := s.rght + e.Slide())
  {}

  /** A row wholly right of the region slides, unless it hangs under the row that vanishes. */
  lemma SlidesBeyond(e: Edit, s: Spot)
    requires e.Lo() <= e.Hi() <= s.lft < s.rght
    requires e.Unwrap? ==> s.parent != Some(e.k) && e.at.lft < e.at.rght
    requires e.Swap? ==> e.a.lft <= e.a.rght < e.b.lft <= e.b.rght
    ensures e.Apply(s) == s.(lft := s.lft + e.Slide(), rght := s.rght + e.Slide())
  {}

  /** A row wholly left of the region stays, unless it hangs under the row that vanishes. */
  lemma StaysBefore(e: Edit, s: Spot)
    requires s.lft < s.rght < e.Lo() <= e.Hi()
    requires e.Unwrap? ==> s.parent != Some(e.k) && e.at.lft < e.at.rght
    requires e.Swap? ==> e.a.lft <= e.a.rght < e.b.lft <= e.b.rght
    ensures e.Apply(s) == s
  {}

  /** An edit among the later trees reaches the whole forest. */
  lemma EditBeside(e: Edit, key: Key, kids: Forest, next: Forest, next': Forest,
                   start: int, par: Option<Key>, d: int, x: Key)
    requires Distinct(Node(key, kids, next)) && e.Within(next, start + 2 * Size(kids) + 2)
    requires par.Some? ==> !Has(next, par.value)
    requires Has(Node(key, kids, next), x)
    requires var base := start + 2 * Size(kids) + 2;
             Has(next, x) ==> Place(next', base, par, d, x) == e.Apply(Place(next, base, par, d, x))
    ensures Place(Node(key, kids, next'), start, par, d, x)
         == e.Apply(Place(Node(key, kids, next), start, par, d, x))
  {
    hide Place, Edit.Apply;
    PlaceStep(key, kids, next, start, par, d, x);
    PlaceStep(key, kids, next', start, par, d, x);
    var was := Place(Node(key, kids, next), start, par, d, x);
    if x == key {
      StaysBefore(e, was);
    } else if Has(kids, x) {
      Span(kids, start + 1, Some(key), d + 1, x);
      StaysBefore(e, was);
    }
  }

  lemma PlaceStep(key: Key, kids: Forest, next: Forest, start: int, par: Option<Key>, d: int, x: Key)
    ensures Place(Node(key, kids, next), start, par, d, x)
         == if x == key then Spot(start, start + 2 * Size(kids) + 1, par, d)
            else if Has(kids, x) then Place(kids, start + 1, Some(key), d + 1, x)
            else Place(next, start + 2 * Size(kids) + 2, par, d, x)
  {}

  // ----- each surgery as an edit

  /** The sibling that follows `k`, if there is one. */
  ghost function NextSibling(f: Forest, k: Key): Option<Key> {
    match f
    case Nil => None
    case Node(key, kids, next) =>
      if key == k then (if next.Node? then Some(next.key) else None)
      else if Has(kids, k) then NextSibling(kids, k)
      else NextSibling(next, k)
  }

  /** The sibling before `k`, if there is one. */
  ghost function PreviousSibling(f: Forest, k: Key): Option<Key> {
    match f
    case Nil => None
    case Node(key, kids, next) =>
      if next.Node? && next.key == k then Some(key)
      else if Has(kids, k) then PreviousSibling(kids, k)
      else PreviousSibling(next, k)
  }

  lemma {:induction false} SiblingsOf(f: Forest, k: Key)
    ensures NextSibling(f, k).Some? ==> Has(f, k) && Has(f, NextSibling(f, k).value)
    ensures PreviousSibling(f, k).Some? ==> Has(f, k) && Has(f, PreviousSibling(f, k).value)
    ensures Distinct(f) && f.Node? ==> NextSibling(f, k) != Some(f.key)
  {
    match f
    case Nil =>
    case Node(key, kids, next) =>
      SiblingsOf(kids, k);
      SiblingsOf(next, k);
  }

  lemma {:induction false} PreviousThenNext(f: Forest, a: Key, b: Key)
    requires Distinct(f)
    ensures NextSibling(f, a) == Some(b) <==> PreviousSibling(f, b) == Some(a)
  {
    match f
    case Nil =>
    case Node(key, kids, next) =>
      PreviousThenNext(kids, a, b);
      PreviousThenNext(next, a, b);
      SiblingsOf(kids, a);
      SiblingsOf(kids, b);
      SiblingsOf(next, a);
      SiblingsOf(next, b);
  }

  /** The edit that surgery at `k` stands for, in the numbering of `f` from `start`. */
  ghost function EditOf(op: Surgery, f: Forest, k: Key, start: int, par: Option<Key>, d: int): Edit {
    var at := Place(f, start, par, d, k);
    match op
    case Graft(g) => Open(at.rght, 2 * Size(g))
    case Cut => Close(at.rght, at.rght - at.lft + 1)
    case Dissolve => Unwrap(k, at)
    case SwapWithNext =>
      match NextSibling(f, k)
      case None => Open(at.rght, 0)
      case Some(k2) => Swap(at, Place(f, start, par, d, k2))
  }

  /** Neighbouring siblings have touching spans, one parent and one depth. */
  lemma {:induction false} NeighboursTouch(f: Forest, k: Key, start: int, par: Option<Key>, d: int)
    requires Distinct(f) && NextSibling(f, k).Some?
    ensures Has(f, k) && Has(f, NextSibling(f, k).value) && NextSibling(f, k).value != k
    ensures var a, b := Place(f, start, par, d, k), Place(f, start, par, d, NextSibling(f, k).value);
            && b.lft == a.rght + 1 && a.lft < a.rght && b.lft < b.rght < start + 2 * Size(f)
            && a.parent == b.parent && a.depth == b.depth
  {
    var Node(key, kids, next) := f;
    if k == key {
    } else if Has(kids, k) {
      NeighboursTouch(kids, k, start + 1, Some(key), d + 1);
    } else {
      NeighboursTouch(next, k, start + 2 * Size(kids) + 2, par, d);
    }
  }

  lemma EditWithin(op: Surgery, f: Forest, k: Key, start: int, par: Option<Key>, d: int)
    requires Distinct(f) && Has(f, k)
    ensures EditOf(op, f, k, start, par, d).Within(f, start)
    ensures EditOf(op, f, k, start, par, d).Slide() == 2 * op.Growth(f, k)
  {
    Span(f, start, par, d, k);
    SubtreeShape(f, k);
    PlaceInSubtree(f, start, par, d, k, k);
    if NextSibling(f, k).Some? { NeighboursTouch(f, k, start, par, d); }
  }

  /** Surgery renumbers every row that it keeps as its edit says. */
  lemma {:induction false} SurgeryRenumbers(op: Surgery, f: Forest, k: Key,
                                            start: int, par: Option<Key>, d: int, x: Key)
    requires Distinct(f) && (par.Some? ==> !Has(f, par.value))
    requires op.FitsIn(f)
    requires Has(f, k) && Has(f, x) && !op.Loses(f, k, x)
    ensures Place(op.On(f, k), start, par, d, x)
         == EditOf(op, f, k, start, par, d).Apply(Place(f, start, par, d, x))
    decreases f, 1
  {
    var Node(key, kids, next) := f;
    if k == key {
      RenumbersAtRoot(op, f, start, par, d, x);
    } else if Has(kids, k) {
      RenumbersBelow(op, f, k, start, par, d, x);
    } else {
      RenumbersBeside(op, f, k, start, par, d, x);
    }
  }

  lemma {:induction false} RenumbersBelow(op: Surgery, f: Forest, k: Key, start: int, par: Option<Key>, d: int, x: Key)
    requires Distinct(f) && (par.Some? ==> !Has(f, par.value))
    requires op.FitsIn(f)
    requires Has(f, x) && !op.Loses(f, k, x)
    requires f.Node? && k != f.key && Has(f.kids, k)
    ensures Place(op.On(f, k), start, par, d, x)
         == EditOf(op, f, k, start, par, d).Apply(Place(f, start, par, d, x))
    decreases f, 0
  {
    hide Edit.Apply;
    var Node(key, kids, next) := f;
    SurgeryAbsent(op, next, k);
    SurgeryShape(op, kids, k);
    SurgeryHas(op, kids, k, x);
    EditWithin(op, kids, k, start + 1, Some(key), d + 1);
    if Has(kids, x) { SurgeryRenumbers(op, kids, k, start + 1, Some(key), d + 1, x); }
    if NextSibling(kids, k).Some? { NeighboursTouch(kids, k, start + 1, Some(key), d + 1); }
    assert op.On(f, k) == Node(key, op.On(kids, k), next);
    assert EditOf(op, f, k, start, par, d) == EditOf(op, kids, k, start + 1, Some(key), d + 1);
    EditBelow(EditOf(op, kids, k, start + 1, Some(key), d + 1), key, kids, op.On(kids, k), next, start, par, d, x);
  }

  lemma {:induction false} RenumbersBeside(op: Surgery, f: Forest, k: Key, start: int, par: Option<Key>, d: int, x: Key)
    requires Distinct(f) && (par.Some? ==> !Has(f, par.value))
    requires op.FitsIn(f)
    requires Has(f, x) && !op.Loses(f, k, x)
    requires f.Node? && k != f.key && Has(f.next, k)
    ensures Place(op.On(f, k), start, par, d, x)
         == EditOf(op, f, k, start, par, d).Apply(Place(f, start, par, d, x))
    decreases f, 0
  {
    hide Edit.Apply;
    var Node(key, kids, next) := f;
    var base := start + 2 * Size(kids) + 2;
    SurgeryAbsent(op, kids, k);
    EditWithin(op, next, k, base, par, d);
    if Has(next, x) { SurgeryRenumbers(op, next, k, base, par, d, x); }
    if NextSibling(next, k).Some? { NeighboursTouch(next, k, base, par, d); }
    assert op.On(f, k) == Node(key, kids, op.On(next, k));
    assert EditOf(op, f, k, start, par, d) == EditOf(op, next, k, base, par, d);
    EditBeside(EditOf(op, next, k, base, par, d), key, kids, next, op.On(next, k), start, par, d, x);
  }

  lemma RenumbersAtRoot(op: Surgery, f: Forest, start: int, par: Option<Key>, d: int, x: Key)
    requires Distinct(f) && (par.Some? ==> !Has(f, par.value)) && f.Node?
    requires op.FitsIn(f)
    requires Has(f, x) && !op.Loses(f, f.key, x)
    ensures Place(op.AtRoot(f), start, par, d, x)
         == EditOf(op, f, f.key, start, par, d).Apply(Place(f, start, par, d, x))
  {
    match op
    case Graft(g) => GraftedAtRoot(f, g, start, par, d, x);
    case Cut =>
      var base := start + 2 * Size(f.kids) + 2;
      Span(f.next, base, par, d, x);
      Rebase(f.next, base, par, d, start, par, d, x);
    case Dissolve => DissolvedAtRoot(f, start, par, d, x);
    case SwapWithNext => if f.next.Node? { SwappedAtRoot(f, start, par, d, x); }
  }

  lemma GraftedAtRoot(f: Forest, g: Forest, start: int, par: Option<Key>, d: int, x: Key)
    requires Distinct(f) && (par.Some? ==> !Has(f, par.value)) && f.Node?
    requires Apart(f, g) && Has(f, x)
    ensures var e := Open(Place(f, start, par, d, f.key).rght, 2 * Size(g));
            Place(Graft(g).AtRoot(f), start, par, d, x) == e.Apply(Place(f, start, par, d, x))
  {
    var Node(key, kids, next) := f;
    AppendShape(kids, g);
    AppendHas(kids, g, x);
    if Has(kids, x) {
      Span(kids, start + 1, Some(key), d + 1, x);
      PlaceInAppend(kids, g, start + 1, Some(key), d + 1, x);
    }
    EditBelow(Open(Place(f, start, par, d, key).rght, 2 * Size(g)), key, kids, Append(kids, g), next, start, par, d, x);
  }

  lemma DissolvedAtRoot(f: Forest, start: int, par: Option<Key>, d: int, x: Key)
    requires Distinct(f) && (par.Some? ==> !Has(f, par.value)) && f.Node?
    requires Has(f, x) && x != f.key
    ensures Place(Dissolve.AtRoot(f), start, par, d, x)
         == Unwrap(f.key, Place(f, start, par, d, f.key)).Apply(Place(f, start, par, d, x))
  {
    var Node(key, kids, next) := f;
    var base := start + 2 * Size(kids) + 2;
    PlaceInAppend(kids, next, start, par, d, x);
    if Has(kids, x) {
      Span(kids, start + 1, Some(key), d + 1, x);
      Rebase(kids, start + 1, Some(key), d + 1, start, par, d, x);
    } else {
      Span(next, base, par, d, x);
      Rebase(next, base, par, d, base - 2, par, d, x);
    }
  }

  lemma SwappedAtRoot(f: Forest, start: int, par: Option<Key>, d: int, x: Key)
    requires Distinct(f) && f.Node? && f.next.Node? && Has(f, x)
    ensures Place(SwapWithNext.AtRoot(f), start, par, d, x)
         == Swap(Place(f, start, par, d, f.key), Place(f, start, par, d, f.next.key)).Apply(Place(f, start, par, d, x))
  {
    var Node(a, kids, Node(b, kids', rest)) := f;
    var w, w' := 2 * Size(kids) + 2, 2 * Size(kids') + 2;
    var e := Swap(Spot(start, start + w - 1, par, d), Spot(start + w, start + w + w' - 1, par, d));
    assert Place(f, start, par, d, a) == e.a;
    assert Place(f, start, par, d, b) == Place(f.next, start + w, par, d, b) == e.b;
    if x == a || x == b {
    } else if Has(kids, x) {
      SwappedKids(e, kids, start + 1, Some(a), d + 1, w', x);
      assert Place(Node(a, kids, rest), start + w', par, d, x) == Place(kids, start + w' + 1, Some(a), d + 1, x);
    } else if Has(kids', x) {
      SwappedKids(e, kids', start + w + 1, Some(b), d + 1, -w, x);
    } else {
      assert Place(f, start, par, d, x) == Place(rest, start + w + w', par, d, x);
      assert Place(Node(a, kids, rest), start + w', par, d, x) == Place(rest, start + w + w', par, d, x);
      Span(rest, start + w + w', par, d, x);
    }
  }

  /** Rows under one of the two exchanged trees go along with it. */
  lemma SwappedKids(e: Edit, kids: Forest, start: int, par: Option<Key>, d: int, offset: int, x: Key)
    requires Distinct(kids) && Has(kids, x) && e.Swap?
    requires || (e.a.lft < start && start + 2 * Size(kids) <= e.a.rght && offset == e.b.rght - e.b.lft + 1)
             || (e.a.rght < e.b.lft < start && start + 2 * Size(kids) <= e.b.rght
                 && offset == -(e.a.rght - e.a.lft + 1))
    ensures Place(kids, start + offset, par, d, x) == e.Apply(Place(kids, start, par, d, x))
  {
    Span(kids, start, par, d, x);
    Rebase(kids, start, par, d, start + offset, par, d, x);
  }

  /** A grafted forest is numbered in the gap that its graft opens. */
  lemma {:induction false} GraftNumbers(f: Forest, p: Key, g: Forest, start: int, par: Option<Key>, d: int, x: Key)
    requires Distinct(f) && Distinct(g) && Apart(f, g)
    requires Has(f, p) && Has(g, x)
    ensures var at := Place(f, start, par, d, p);
            Place(Graft(g).On(f, p), start, par, d, x) == Place(g, at.rght, Some(p), at.depth + 1, x)
  {
    var Node(key, kids, next) := f;
    if p == key {
      AppendHas(kids, g, x);
      PlaceInAppend(kids, g, start + 1, Some(key), d + 1, x);
    } else if Has(kids, p) {
      SurgeryHas(Graft(g), kids, p, x);
      GraftNumbers(kids, p, g, start + 1, Some(key), d + 1, x);
    } else {
      SurgeryAbsent(Graft(g), kids, p);
      GraftNumbers(next, p, g, start + 2 * Size(kids) + 2, par, d, x);
    }
  }
}
