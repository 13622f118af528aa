/** Checkpoints of the unit of work: what each remembers, and that taking it back restores
    the moment at which it was taken. */
module Checkpoints {
  import opened Values
  import opened Sorting

  /** The address of an entity. */
  datatype Ref = Ref(address: nat)

  /** An entity in memory: its column members, and its relation members and event queues. */
  datatype Entity = Entity(columns: Columns, runtime: seq<Value>)

  datatype Status = New | Managed | Removed | Detached

  datatype Tracked = Tracked(status: Status, table: string, primaryKey: string, generated: bool, original: Columns)

  /** What is tracked, in order, and the entities themselves. */
  datatype Memory = Memory(tracked: map<Ref, Tracked>, order: seq<Ref>, objects: map<Ref, Entity>)

  datatype Entry = Entry(existed: bool, tracked: Tracked, current: Columns, runtime: seq<Value>)

  datatype Checkpoint = Checkpoint(entries: map<Ref, Entry>, order: seq<Ref>)

  /** `ks` without `k`. */
  function Without(ks: seq<Ref>, k: Ref): seq<Ref> {
    if ks == [] then []
    else if ks[0] == k then Without(ks[1..], k)
    else [ks[0]] + Without(ks[1..], k)
  }

  lemma {:induction false} WithoutKeeps(ks: seq<Ref>, k: Ref)
    ensures forall x :: x in Without(ks, k) <==> x in ks && x != k
    ensures NoRepeat(ks) ==> NoRepeat(Without(ks, k))
  {
    if ks != [] {
      WithoutKeeps(ks[1..], k);
      assert forall x :: x in ks <==> x == ks[0] || x in ks[1..];
      if NoRepeat(ks) {
        assert NoRepeat(ks[1..]) && ks[0] !in ks[1..];
      }
    }
  }

  /** The order and the map hold the same keys, without repeats, and every entity has its key column. */
  ghost predicate WellFormed(m: Memory) {
    && NoRepeat(m.order)
    && (forall k :: k in m.tracked <==> k in m.order)
    && (forall k | k in m.tracked :: k in m.objects && m.tracked[k].primaryKey in m.objects[k].columns)
  }

  function Capture(existed: bool, t: Tracked, e: Entity): Entry {
    Entry(existed, t, e.columns, e.runtime)
  }

  /** The members that the entry names get their old values back. */
  function Restore(e: Entity, entry: Entry): Entity {
    Entity(map c | c in e.columns :: if c in entry.current then entry.current[c] else e.columns[c], entry.runtime)
  }

  /** A checkpoint once `k` is tracked: a key it has not seen did not exist when it was taken. */
  function Noted(c: Checkpoint, k: Ref, t: Tracked, e: Entity): Checkpoint {
    if k in c.entries then c else c.(entries := c.entries[k := Capture(false, t, e)])
  }

  /** The memory after `c` is taken back. */
  ghost function RolledBack(c: Checkpoint, m: Memory): Memory {
    Memory(
      map k | k in m.tracked.Keys + c.entries.Keys && (k in c.entries ==> c.entries[k].existed) ::
        if k in c.entries then c.entries[k].tracked else m.tracked[k],
      c.order,
      map k | k in m.objects :: if k in c.entries then Restore(m.objects[k], c.entries[k]) else m.objects[k])
  }

  /** The moment at which a checkpoint was taken, and the entities first tracked since, as they were then. */
  datatype Moment = Moment(memory: Memory, firsts: map<Ref, Entity>)

  /** `c` can still take the memory `now` back to the moment `s`. */
  ghost predicate Keeps(c: Checkpoint, s: Moment, now: Memory) {
    && WellFormed(s.memory) && c.order == s.memory.order
    && (forall k | k in s.memory.tracked ::
          k in c.entries && c.entries[k] == Capture(true, s.memory.tracked[k], s.memory.objects[k]))
    && (forall k | k in c.entries ::
          k in s.memory.tracked || (k in s.firsts && c.entries[k] == Capture(false, c.entries[k].tracked, s.firsts[k])))
    && (forall k | k in s.firsts :: k in c.entries && k !in s.memory.tracked)
    && (forall k | k in now.tracked :: k in c.entries)
    && (forall k | k in c.entries :: k in now.objects && now.objects[k].columns.Keys == c.entries[k].current.Keys)
  }

  /** Every checkpoint keeps its moment. Later moments track only what earlier checkpoints know. */
  ghost predicate AllKept(cs: seq<Checkpoint>, moments: seq<Moment>, now: Memory) {
    && WellFormed(now) && |cs| == |moments|
    && (forall i | 0 <= i < |cs| :: Keeps(cs[i], moments[i], now))
    && (forall i, j | 0 <= i < j < |cs| :: moments[j].memory.tracked.Keys <= cs[i].entries.Keys)
  }

  /** Everything that was tracked at the moment is tracked again, with its values, and what was first
      tracked since has the values that it had then. */
  lemma RollbackRestores(c: Checkpoint, s: Moment, now: Memory)
    requires Keeps(c, s, now)
    ensures RolledBack(c, now).tracked == s.memory.tracked && RolledBack(c, now).order == s.memory.order
    ensures RolledBack(c, now).objects.Keys == now.objects.Keys
    ensures forall k | k in s.memory.tracked :: k in now.objects && RolledBack(c, now).objects[k] == s.memory.objects[k]
    ensures forall k | k in s.firsts :: k in now.objects && RolledBack(c, now).objects[k] == s.firsts[k]
    ensures forall k | k in now.objects && k !in c.entries :: RolledBack(c, now).objects[k] == now.objects[k]
    ensures WellFormed(RolledBack(c, now))
  {
    forall k | k in c.entries
      ensures k in now.objects
      ensures Restore(now.objects[k], c.entries[k]) == Entity(c.entries[k].current, c.entries[k].runtime)
    {
      RestoreIsExact(now.objects[k], c.entries[k]);
    }
    hide Restore;
    RollbackTracks(c, s, now);
  }

  /** What is tracked, its order and its values are those of the moment. Entities first tracked since have
      the values that they had then, and all others stay. */
  ghost function Back(s: Moment, was: Memory): Memory {
    Memory(s.memory.tracked, s.memory.order,
           map k | k in was.objects ::
             if k in s.memory.tracked && k in s.memory.objects then s.memory.objects[k]
             else if k in s.firsts then s.firsts[k] else was.objects[k])
  }

  lemma RollbackIsBack(c: Checkpoint, s: Moment, now: Memory)
    requires Keeps(c, s, now)
    ensures RolledBack(c, now) == Back(s, now)
  {
    RollbackRestores(c, s, now);
    hide Restore;
    var m := RolledBack(c, now);
    forall k | k in now.objects
      ensures m.objects[k] == Back(s, now).objects[k]
    {
      if k !in c.entries { assert k !in s.memory.tracked && k !in s.firsts; }
    }
    assert m.objects == Back(s, now).objects;
  }

  lemma RollbackTracks(c: Checkpoint, s: Moment, now: Memory)
    requires Keeps(c, s, now)
    ensures RolledBack(c, now).tracked == s.memory.tracked
  {
    hide Restore, WellFormed;
    var back := RolledBack(c, now).tracked;
    assert forall k :: k in back <==> k in s.memory.tracked;
    assert forall k | k in back :: back[k] == s.memory.tracked[k];
  }

  lemma RestoreIsExact(e: Entity, entry: Entry)
    requires e.columns.Keys == entry.current.Keys
    ensures Restore(e, entry) == Entity(entry.current, entry.runtime)
  {}

  /** Memory changes that the checkpoints need not be told of: entities keep their columns, and
      nothing new is tracked. */
  ghost predicate Quiet(was: Memory, now: Memory) {
    && WellFormed(now)
    && now.tracked.Keys <= was.tracked.Keys
    && (forall k | k in was.objects :: k in now.objects && now.objects[k].columns.Keys == was.objects[k].columns.Keys)
  }

  lemma QuietKeeps(cs: seq<Checkpoint>, moments: seq<Moment>, was: Memory, now: Memory)
    requires AllKept(cs, moments, was) && Quiet(was, now)
    ensures AllKept(cs, moments, now)
  {}

  /** The moments once `k` is tracked. */
  ghost function Witnessed(moments: seq<Moment>, cs: seq<Checkpoint>, k: Ref, e: Entity): seq<Moment>
    requires |cs| == |moments|
  {
    seq(|moments|, i requires 0 <= i < |moments| =>
      if k in cs[i].entries then moments[i] else moments[i].(firsts := moments[i].firsts[k := e]))
  }

  /** The same moments, with perhaps more entities first tracked since. */
  ghost predicate Prolongs(was: seq<Moment>, now: seq<Moment>) {
    |was| == |now| && forall i | 0 <= i < |was| ::
      && now[i].memory == was[i].memory
      && forall k | k in was[i].firsts :: k in now[i].firsts && now[i].firsts[k] == was[i].firsts[k]
  }

  lemma WitnessProlongs(cs: seq<Checkpoint>, moments: seq<Moment>, now: Memory, k: Ref, e: Entity)
    requires AllKept(cs, moments, now)
    ensures Prolongs(moments, Witnessed(moments, cs, k, e))
  {}

  lemma TrackKeeps(cs: seq<Checkpoint>, cs': seq<Checkpoint>, moments: seq<Moment>, was: Memory, k: Ref, t: Tracked)
    requires AllKept(cs, moments, was)
    requires k in was.objects && t.primaryKey in was.objects[k].columns
    requires |cs'| == |cs| && forall i | 0 <= i < |cs| :: cs'[i] == Noted(cs[i], k, t, was.objects[k])
    ensures var order := if k in was.tracked then was.order else was.order + [k];
            AllKept(cs', Witnessed(moments, cs, k, was.objects[k]),
                    was.(tracked := was.tracked[k := t], order := order))
  {
    var order := if k in was.tracked then was.order else was.order + [k];
    var now := was.(tracked := was.tracked[k := t], order := order);
    var moments' := Witnessed(moments, cs, k, was.objects[k]);
    forall i | 0 <= i < |cs|
      ensures Keeps(cs'[i], moments'[i], now)
    {
      TrackKeepsOne(cs[i], moments[i], was, k, t, order);
    }
  }

  lemma TrackKeepsOne(c: Checkpoint, s: Moment, was: Memory, k: Ref, t: Tracked, order: seq<Ref>)
    requires Keeps(c, s, was) && k in was.objects
    ensures var s' := if k in c.entries then s else s.(firsts := s.firsts[k := was.objects[k]]);
            Keeps(Noted(c, k, t, was.objects[k]), s', was.(tracked := was.tracked[k := t], order := order))
  {
    hide WellFormed;
    if k !in c.entries { KeepsNew(c, s, was, k, t, order); } else { KeepsKnown(c, s, was, k, t, order); }
  }

  lemma KeepsKnown(c: Checkpoint, s: Moment, was: Memory, k: Ref, t: Tracked, order: seq<Ref>)
    requires Keeps(c, s, was) && k in c.entries
    ensures Keeps(c, s, was.(tracked := was.tracked[k := t], order := order))
  {
    hide WellFormed;
  }

  lemma KeepsNew(c: Checkpoint, s: Moment, was: Memory, k: Ref, t: Tracked, order: seq<Ref>)
    requires Keeps(c, s, was) && k in was.objects && k !in c.entries
    ensures Keeps(Noted(c, k, t, was.objects[k]), s.(firsts := s.firsts[k := was.objects[k]]),
                  was.(tracked := was.tracked[k := t], order := order))
  {
    hide Keeps, WellFormed, Noted, Capture;
    NotedEntry(c, k, t, was.objects[k]);
    KeepsOneMore(c, s, was, k, Noted(c, k, t, was.objects[k]), s.(firsts := s.firsts[k := was.objects[k]]),
                 was.(tracked := was.tracked[k := t], order := order));
  }

  lemma NotedEntry(c: Checkpoint, k: Ref, t: Tracked, e: Entity)
    requires k !in c.entries
    ensures Noted(c, k, t, e).order == c.order
    ensures forall j :: j in Noted(c, k, t, e).entries <==> j in c.entries || j == k
    ensures forall j | j in c.entries :: Noted(c, k, t, e).entries[j] == c.entries[j]
    ensures var entry := Noted(c, k, t, e).entries[k];
            entry == Capture(false, entry.tracked, e) && entry.current == e.columns
  {}

  /** One entity more is tracked, noted by the checkpoint and witnessed by the moment. */
  lemma KeepsOneMore(c: Checkpoint, s: Moment, was: Memory, k: Ref, c': Checkpoint, s': Moment, now: Memory)
    requires Keeps(c, s, was) && k !in c.entries && k in was.objects
    requires c'.order == c.order && forall j :: j in c'.entries <==> j in c.entries || j == k
    requires forall j | j in c.entries :: c'.entries[j] == c.entries[j]
    requires s'.memory == s.memory && forall j :: j in s'.firsts <==> j in s.firsts || j == k
    requires forall j | j in s.firsts && j != k :: s'.firsts[j] == s.firsts[j]
    requires c'.entries[k] == Capture(false, c'.entries[k].tracked, s'.firsts[k])
    requires c'.entries[k].current.Keys == was.objects[k].columns.Keys
    requires now.objects == was.objects && forall j :: j in now.tracked <==> j in was.tracked || j == k
    ensures Keeps(c', s', now)
  {
    hide WellFormed, Capture;
  }

  /** A checkpoint taken now, of what is tracked. */
  ghost function Taken(m: Memory): Checkpoint
    requires WellFormed(m)
  {
    Checkpoint(map k | k in m.tracked :: Capture(true, m.tracked[k], m.objects[k]), m.order)
  }

  lemma BeginKeeps(cs: seq<Checkpoint>, moments: seq<Moment>, m: Memory)
    requires AllKept(cs, moments, m)
    ensures AllKept(cs + [Taken(m)], moments + [Moment(m, map[])], m)
  {
    var c := Taken(m);
    assert Keeps(c, Moment(m, map[]), m);
  }

  lemma CommitKeeps(cs: seq<Checkpoint>, moments: seq<Moment>, m: Memory)
    requires AllKept(cs, moments, m) && cs != []
    ensures AllKept(cs[..|cs| - 1], moments[..|cs| - 1], m)
  {}

  lemma RollbackKeeps(cs: seq<Checkpoint>, moments: seq<Moment>, m: Memory)
    requires AllKept(cs, moments, m) && cs != []
    ensures AllKept(cs[..|cs| - 1], moments[..|cs| - 1], RolledBack(cs[|cs| - 1], m))
  {
    var c, s := cs[|cs| - 1], moments[|cs| - 1];
    RollbackRestores(c, s, m);
    var now := RolledBack(c, m);
    forall i | 0 <= i < |cs| - 1
      ensures Keeps(cs[i], moments[i], now)
    {
      assert forall k | k in m.objects :: now.objects[k].columns.Keys == m.objects[k].columns.Keys;
    }
  }

  // ----- whole histories

  /** `k` was tracked when the entity was `e`. */
  datatype Sight = Sight(k: Ref, e: Entity)

  /** The entities first tracked since the moment, once those of `sights` have been tracked. */
  ghost function FirstsAfter(s: Moment, sights: seq<Sight>): map<Ref, Entity> {
    if sights == [] then s.firsts
    else
      var before, last := FirstsAfter(s, sights[..|sights| - 1]), sights[|sights| - 1];
      if last.k in s.memory.tracked || last.k in before then before else before[last.k := last.e]
  }

  /** All moments have witnessed the same. */
  ghost predicate Saw(was: seq<Moment>, sights: seq<Sight>, now: seq<Moment>) {
    |was| == |now| && forall i | 0 <= i < |was| :: now[i] == was[i].(firsts := FirstsAfter(was[i], sights))
  }

  lemma SawNothing(was: seq<Moment>)
    ensures Saw(was, [], was)
  {}

  lemma {:induction false} FirstsTogether(s: Moment, a: seq<Sight>, b: seq<Sight>)
    ensures FirstsAfter(s.(firsts := FirstsAfter(s, a)), b) == FirstsAfter(s, a + b)
  {
    if b == [] {
      assert a + b == a;
    } else {
      assert (a + b)[..|a + b| - 1] == a + b[..|b| - 1];
      FirstsTogether(s, a, b[..|b| - 1]);
    }
  }

  lemma SawMore(was: seq<Moment>, a: seq<Sight>, mid: seq<Moment>, b: seq<Sight>, now: seq<Moment>)
    requires Saw(was, a, mid) && Saw(mid, b, now)
    ensures Saw(was, a + b, now)
  {
    forall i | 0 <= i < |was| { FirstsTogether(was[i], a, b); }
  }

  lemma WitnessSaw(cs: seq<Checkpoint>, moments: seq<Moment>, now: Memory, k: Ref, e: Entity)
    requires AllKept(cs, moments, now)
    ensures Saw(moments, [Sight(k, e)], Witnessed(moments, cs, k, e))
  {
    assert [Sight(k, e)][..0] == [];
    forall i | 0 <= i < |moments|
      ensures FirstsAfter(moments[i], [Sight(k, e)])
           == if k in cs[i].entries then moments[i].firsts else moments[i].firsts[k := e]
    {
      assert Keeps(cs[i], moments[i], now);
      assert FirstsAfter(moments[i], []) == moments[i].firsts;
    }
  }

  /** Of several sights of an entity the first one counts. */
  lemma {:induction false} FirstCounts(s: Moment, sights: seq<Sight>, i: nat)
    requires i < |sights| && sights[i].k !in s.memory.tracked && sights[i].k !in s.firsts
    requires forall j | 0 <= j < i :: sights[j].k != sights[i].k
    ensures sights[i].k in FirstsAfter(s, sights) && FirstsAfter(s, sights)[sights[i].k] == sights[i].e
    decreases |sights|
  {
    var init := sights[..|sights| - 1];
    if i < |init| {
      FirstCounts(s, init, i);
    } else {
      NotSeen(s, init, sights[i].k);
    }
  }

  lemma {:induction false} NotSeen(s: Moment, sights: seq<Sight>, k: Ref)
    requires k !in s.firsts && forall j | 0 <= j < |sights| :: sights[j].k != k
    ensures k !in FirstsAfter(s, sights)
  {
    if sights != [] { NotSeen(s, sights[..|sights| - 1], k); }
  }
}
