/** The unit of work: the tracked entities, and a stack of checkpoints to go back to. */
module UnitsOfWork {
  import opened Wrappers
  import opened Values
  import opened Checkpoints
  import opened Database
  import opened Flushing
  import opened WriteBacks

  class UnitOfWork {
    const executor: Executor
    var tracked: map<Ref, Tracked>
    var order: seq<Ref>
    var checkpoints: seq<Checkpoint>
    /** The entities that the application holds. */
    var objects: map<Ref, Entity>
    /** Which entity stands for a row. */
    var identities: map<RowId, Ref>
    /** When each checkpoint was taken. */
    ghost var moments: seq<Moment>

    ghost function Now(): Memory
      reads this
    {
      Memory(tracked, order, objects)
    }

    /** Memory, identities, and the rows that the connection sees. */
    ghost function Whole(): World
      reads this, executor
    {
      World(Now(), identities, executor.working)
    }

    ghost predicate Valid()
      reads this
    {
      AllKept(checkpoints, moments, Now())
    }

    constructor (executor: Executor, objects: map<Ref, Entity>)
      ensures Valid() && this.executor == executor
      ensures Now() == Memory(map[], [], objects) && checkpoints == []
    {
      this.executor := executor;
      this.objects := objects;
      tracked, order, checkpoints, identities, moments := map[], [], [], map[], [];
    }

    // ----- tracking

    method Track(k: Ref, t: Tracked)
      requires Valid() && k in objects && t.primaryKey in objects[k].columns
      modifies this
      ensures Valid() && objects == old(objects) && tracked == old(tracked)[k := t]
      ensures identities == old(identities)
      ensures order == if k in old(tracked) then old(order) else old(order) + [k]
      ensures moments == Witnessed(old(moments), old(checkpoints), k, objects[k]) && Prolongs(old(moments), moments)
      ensures Saw(old(moments), [Sight(k, objects[k])], moments)
      ensures |checkpoints| == old(|checkpoints|)
    {
      WitnessSaw(checkpoints, moments, Now(), k, objects[k]);
      assert |checkpoints| == |moments|;
      hide AllKept, Noted, Saw, Prolongs, Witnessed;
      NoteAll(k, t);
      WitnessProlongs(old(checkpoints), moments, old(Now()), k, objects[k]);
      TrackKeeps(old(checkpoints), checkpoints, moments, Now(), k, t);
      moments := Witnessed(moments, old(checkpoints), k, objects[k]);
      if k !in tracked { order := order + [k]; }
      tracked := tracked[k := t];
    }

    /** The loop over the checkpoints. */
    method NoteAll(k: Ref, t: Tracked)
      requires k in objects
      modifies this`checkpoints
      ensures |checkpoints| == old(|checkpoints|)
      ensures forall j | 0 <= j < |checkpoints| :: checkpoints[j] == Noted(old(checkpoints)[j], k, t, objects[k])
    {
      hide Noted;
      var i := 0;
      while i < |checkpoints|
        invariant 0 <= i <= |checkpoints| == old(|checkpoints|)
        invariant forall j | 0 <= j < i :: checkpoints[j] == Noted(old(checkpoints)[j], k, t, objects[k])
        invariant forall j | i <= j < |checkpoints| :: checkpoints[j] == old(checkpoints)[j]
      {
        checkpoints := checkpoints[i := Noted(checkpoints[i], k, t, objects[k])];
        i := i + 1;
      }
    }

    method Erase(k: Ref)
      requires Valid()
      modifies this`tracked, this`order
      ensures Valid() && tracked == old(tracked) - {k} && order == Without(old(order), k)
    {
      ghost var was := Now();
      tracked := tracked - {k};
      WithoutKeeps(order, k);
      order := Without(order, k);
      QuietKeeps(checkpoints, moments, was, Now());
    }

    method SetStatus(k: Ref, s: Status)
      requires Valid()
      modifies this`tracked
      ensures Valid()
      ensures tracked == if k in old(tracked) then old(tracked)[k := old(tracked)[k].(status := s)] else old(tracked)
    {
      ghost var was := Now();
      if k in tracked {
        tracked := tracked[k := tracked[k].(status := s)];
      }
      QuietKeeps(checkpoints, moments, was, Now());
    }

    method RefreshSnapshot(k: Ref)
      requires Valid()
      modifies this`tracked
      ensures Valid()
      ensures tracked == if k in old(tracked) then old(tracked)[k := old(tracked)[k].(original := objects[k].columns)]
                         else old(tracked)
    {
      ghost var was := Now();
      if k in tracked {
        tracked := tracked[k := tracked[k].(original := objects[k].columns)];
      }
      QuietKeeps(checkpoints, moments, was, Now());
    }

    /** The application changes an entity, or makes a new one. */
    method Assign(k: Ref, e: Entity)
      requires Valid() && (k in objects ==> e.columns.Keys == objects[k].columns.Keys)
      modifies this`objects
      ensures Valid() && objects == old(objects)[k := e]
    {
      ghost var was := Now();
      objects := objects[k := e];
      QuietKeeps(checkpoints, moments, was, Now());
    }

    method RegisterIdentity(k: Ref)
      requires k in tracked && k in objects
      modifies this`identities
      ensures identities == Registered(old(identities), tracked[k], objects[k], k)
    {
      var t, e := tracked[k], objects[k];
      if HasIdentity(t, e) {
        identities := identities[RowId(t.table, e.columns[t.primaryKey]) := k];
      }
    }

    method RebuildIdentities()
      requires Valid()
      modifies this`identities
      ensures Valid() && identities == IdentitiesOf(Now(), order)
    {
      identities := map[];
      for i := 0 to |order|
        invariant Valid() && identities == IdentitiesOf(Now(), order[..i])
      {
        assert order[i] in order && order[..i + 1][..i] == order[..i];
        RegisterIdentity(order[i]);
      }
      assert order[..|order|] == order;
    }

    // ----- flush

    /** INSERT, and then the generated key goes into the entity, which is found under its key from then on. An
        insert that did not return the key that it generated is an error, although the row is there. */
    method FlushInsert(k: Ref) returns (ok: bool, ghost w: RowWrite)
      requires Valid() && executor.Valid() && k in tracked && tracked[k].status == New
      modifies this`tracked, this`objects, this`identities, executor
      ensures Valid() && executor.Valid()
      ensures StatementOnly(old(executor.open), old(executor.savepoints), old(executor.committed))
      ensures Answered(ok, old(executor.refusals), old(executor.stuck))
      ensures !ok ==> MayBeLost(old(Now()), old(executor.working), k, w)
      ensures !ok ==> Whole() == old(Whole()).(rows := Apply(old(executor.working), w))
      ensures ok ==> Fits(old(Now()), k, w) && w.id !in old(executor.working)
      ensures ok ==> Whole() == AfterWrite(old(Whole()), k, w)
    {
      ghost var was, rows := Now(), executor.working;
      w := Skips;
      var t, columns := tracked[k], objects[k].columns;
      var generate := t.generated && IsEmptyGenerated(columns[t.primaryKey]);
      var values := if generate then columns - {t.primaryKey} else columns;
      ghost var made;
      var inserted, got;
      inserted, got, made := executor.Insert(t.table, t.primaryKey, values, generate);
      if inserted {
        w := InsertOf(was, k, made);
        assert values[t.primaryKey := made] == columns[t.primaryKey := made];
      }
      if !inserted || got.None? {
        return false, w;
      }
      columns := columns[t.primaryKey := got.value];
      objects := objects[k := objects[k].(columns := columns)];
      tracked := tracked[k := t.(status := Managed, original := columns)];
      InsertedIsQuiet(was, k, made);
      QuietKeeps(checkpoints, moments, was, Now());
      RegisterIdentity(k);
      ok := true;
    }

    /** UPDATE of the columns that differ from the remembered ones, if there are any. */
    method FlushUpdateIfDirty(k: Ref) returns (ok: bool)
      requires Valid() && executor.Valid() && k in tracked
      modifies this`tracked, executor
      ensures Valid() && executor.Valid()
      ensures StatementOnly(old(executor.open), old(executor.savepoints), old(executor.committed))
      ensures Answered(ok, old(executor.refusals), old(executor.stuck))
      ensures !ok ==> Whole() == old(Whole())
      ensures ok ==> Now() == Updated(old(Now()), k)
      ensures ok ==> executor.working == Apply(old(executor.working), UpdateOf(old(Now()), k))
      ensures Changed(old(tracked)[k], objects[k].columns) == map[] ==>
                ok && executor.statements == old(executor.statements) && executor.working == old(executor.working)
                && executor.committed == old(executor.committed)
    {
      ghost var was := Now();
      var t, columns := tracked[k], objects[k].columns;
      var changed := Changed(t, columns);
      if changed == map[] {
        return true;
      }
      ok := executor.Update(RowId(t.table, columns[t.primaryKey]), changed);
      if !ok {
        return;
      }
      tracked := tracked[k := t.(original := columns)];
      QuietKeeps(checkpoints, moments, was, Now());
    }

    /** DELETE, and the entity is tracked and found no more. */
    method FlushDelete(k: Ref) returns (ok: bool)
      requires Valid() && executor.Valid() && k in tracked
      modifies this`tracked, this`order, this`identities, executor
      ensures Valid() && executor.Valid()
      ensures StatementOnly(old(executor.open), old(executor.savepoints), old(executor.committed))
      ensures Answered(ok, old(executor.refusals), old(executor.stuck))
      ensures !ok ==> Whole() == old(Whole())
      ensures ok ==> Now() == Deleted(old(Now()), k)
      ensures ok ==> identities == old(identities) - {Id(old(Now()), k)}
      ensures ok ==> executor.working == old(executor.working) - {Id(old(Now()), k)}
    {
      var t := tracked[k];
      var id := RowId(t.table, objects[k].columns[t.primaryKey]);
      ok := executor.Delete(id);
      if !ok {
        return;
      }
      identities := identities - {id};
      Erase(k);
    }

    /** What no statement does: begin or end a transaction, set or forget savepoints, or commit within one. */
    ghost predicate StatementOnly(open: bool, saves: seq<Savepoint>, committed: Rows)
      reads executor
    {
      executor.open == open && executor.savepoints == saves && (executor.open ==> executor.committed == committed)
    }

    /** An error comes of a refusal, and a refusal makes an error. */
    ghost predicate Answered(ok: bool, refusals: nat, stuck: nat)
      reads executor
    {
      refusals <= executor.refusals && (ok <==> executor.refusals == refusals) && executor.stuck == stuck
    }

    /** Writes every tracked entity, in the order in which they were tracked. Entities that remember their rows
        are written back correctly exactly if those that stand for one row agree and no removed one takes the
        row of another along. */
    method Flush() returns (ok: bool, ghost log: seq<RowWrite>, ghost lost: RowWrite)
      requires Valid() && executor.Valid()
      modifies this`tracked, this`objects, this`order, this`identities, executor
      ensures Valid() && executor.Valid()
      ensures StatementOnly(old(executor.open), old(executor.savepoints), old(executor.committed))
      ensures Answered(ok, old(executor.refusals), old(executor.stuck))
      ensures Tried(old(Whole()), log, lost) && Whole() == AfterFlush(old(Whole()), log, lost)
      ensures ok ==> |log| == |old(order)| && lost == Skips
      ensures ok ==> Flushed(old(Now()), old(executor.working), log, Now(), executor.working)
      ensures ok ==> FoundRightly(old(Now()), old(identities), log, identities)
      ensures ok ==> forall k | k in tracked :: Unchanged(Now(), k)
      ensures ok && Remembered(old(Now()), old(executor.working)) ==>
                WritesBackExactly(old(Now()), old(executor.working), log, Now(), executor.working)
      ensures (forall k | k in old(tracked) :: Unchanged(old(Now()), k)) ==>
                ok && executor.statements == old(executor.statements) && Whole() == old(Whole())
                && executor.committed == old(executor.committed)
    {
      hide Tried, Flushed, AfterFlush, Unchanged, WritesBackExactly, Remembered, AllKept, FoundRightly;
      ghost var v := Whole();
      ok, log, lost := FlushAll();
      if ok {
        CompleteIsFlushed(v, log);
        FlushedIsUnchanged(v.memory, v.rows, log, Now(), executor.working);
        FlushFindsRightly(v, log);
        if Remembered(v.memory, v.rows) { EveryFlush(v.memory, v.rows, log, Now(), executor.working); }
      }
    }

    /** The loop over the entities. */
    method FlushAll() returns (ok: bool, ghost log: seq<RowWrite>, ghost lost: RowWrite)
      requires Valid() && executor.Valid()
      modifies this`tracked, this`objects, this`order, this`identities, executor
      ensures Valid() && executor.Valid()
      ensures StatementOnly(old(executor.open), old(executor.savepoints), old(executor.committed))
      ensures Answered(ok, old(executor.refusals), old(executor.stuck))
      ensures Tried(old(Whole()), log, lost) && Whole() == AfterFlush(old(Whole()), log, lost)
      ensures ok ==> |log| == |old(order)| && lost == Skips
      ensures (forall k | k in old(tracked) :: Unchanged(old(Now()), k)) ==>
                ok && executor.statements == old(executor.statements) && Whole() == old(Whole())
                && executor.committed == old(executor.committed)
    {
      hide Progress, Writes, Fits, AfterWrite, Apply, Unchanged, MayBeLost, AllKept;
      var keys := order;
      ghost var v, statements := Whole(), executor.statements;
      ghost var committed := executor.committed;
      ghost var still := forall k | k in v.memory.tracked :: Unchanged(v.memory, k);
      log, lost := [], Skips;
      OrderIsTracked(this);
      NothingWritten(v.memory, v.rows);
      for i := 0 to |keys|
        invariant Valid() && executor.Valid()
        invariant StatementOnly(old(executor.open), old(executor.savepoints), old(executor.committed))
        invariant executor.refusals == old(executor.refusals) && executor.stuck == old(executor.stuck)
        invariant |log| == i && Whole() == AfterWrites(v, keys, log) && lost == Skips
        invariant Progress(v.memory, v.rows, log, Now(), executor.working)
        invariant still ==> Whole() == v && executor.statements == statements && executor.committed == committed
      {
        var k := keys[i];
        ghost var u, w := Whole(), Skips;
        OrderIsTracked(this);
        NextIsKept(v.memory, v.rows, log, u.memory, u.rows);
        NextIsTracked(v.memory, u.memory, k);
        var done;
        done, w := FlushOne(k);
        if !done {
          TriedAndLost(v, log, w);
          return false, log, w;
        }
        StepProgress(v.memory, v.rows, log, u.memory, u.rows, w, Now(), executor.working);
        AfterOneMore(v, keys, log, w);
        log := log + [w];
      }
      TriedAndLost(v, log, Skips);
      ok := true;
    }

    /** What the loop does for one entity. */
    method FlushOne(k: Ref) returns (ok: bool, ghost w: RowWrite)
      requires Valid() && executor.Valid() && k in tracked
      modifies this`tracked, this`objects, this`order, this`identities, executor
      ensures Valid() && executor.Valid()
      ensures StatementOnly(old(executor.open), old(executor.savepoints), old(executor.committed))
      ensures Answered(ok, old(executor.refusals), old(executor.stuck))
      ensures !ok ==> MayBeLost(old(Now()), old(executor.working), k, w)
      ensures !ok ==> Whole() == old(Whole()).(rows := Apply(old(executor.working), w))
      ensures ok ==> Writes(old(Now()), old(executor.working), k, w, Now(), executor.working)
      ensures ok ==> Whole() == AfterWrite(old(Whole()), k, w)
      ensures Unchanged(old(Now()), k) ==>
                ok && executor.statements == old(executor.statements) && Whole() == old(Whole())
                && executor.committed == old(executor.committed)
    {
      hide Writes, Inserted, Deleted, Changed, AllKept, WellFormed;
      ghost var v := Whole();
      TrackedIsThere(this, k);
      w := Skips;
      match tracked[k].status {
        case New => ok, w := FlushInsert(k);
        case Managed =>
          ok := FlushUpdateIfDirty(k);
          w := if ok then UpdateOf(v.memory, k) else Skips;
          if ok { UpdateIsAfter(v, k); }
        case Removed =>
          ok := FlushDelete(k);
          w := if ok then Deletes(Id(v.memory, k)) else Skips;
          if ok { DeleteIsAfter(v, k); }
        case Detached => ok := true;
      }
      if ok { WriteDone(v.memory, v, k, w); }
    }

    // ----- checkpoints

    method BeginCheckpoint()
      requires Valid()
      modifies this`checkpoints, this`moments
      ensures Valid() && moments == old(moments) + [Moment(Now(), map[])]
      ensures |checkpoints| == old(|checkpoints|) + 1
    {
      var entries: map<Ref, Entry> := map[];
      for i := 0 to |order|
        invariant forall k :: k in entries <==> k in order[..i]
        invariant forall k | k in entries :: entries[k] == Capture(true, tracked[k], objects[k])
      {
        var k := order[i];
        assert k in order;
        entries := entries[k := Capture(true, tracked[k], objects[k])];
      }
      assert order[..|order|] == order;
      BeginKeeps(checkpoints, moments, Now());
      assert entries == Taken(Now()).entries;
      checkpoints := checkpoints + [Checkpoint(entries, order)];
      moments := moments + [Moment(Now(), map[])];
    }

    method CommitCheckpoint() returns (ok: bool)
      requires Valid()
      modifies this`checkpoints, this`moments
      ensures Valid()
      ensures ok <==> old(checkpoints) != []
      ensures |checkpoints| == if ok then old(|checkpoints|) - 1 else 0
      ensures moments == if ok then old(moments)[..|old(moments)| - 1] else old(moments)
    {
      if checkpoints == [] { return false; }
      CommitKeeps(checkpoints, moments, Now());
      checkpoints := checkpoints[..|checkpoints| - 1];
      moments := moments[..|moments| - 1];
      ok := true;
    }

    /** Takes everything back to the moment of the last checkpoint. */
    method RollbackCheckpoint() returns (ok: bool)
      requires Valid()
      modifies this
      ensures Valid()
      ensures ok <==> old(checkpoints) != []
      ensures |checkpoints| == if ok then old(|checkpoints|) - 1 else 0
      ensures moments == if ok then old(moments)[..|old(moments)| - 1] else old(moments)
      ensures !ok ==> Now() == old(Now())
      ensures ok ==> Now() == Back(old(moments)[|old(moments)| - 1], old(Now()))
    {
      hide AllKept, RolledBack, Back;
      if checkpoints == [] { return false; }
      var checkpoint := checkpoints[|checkpoints| - 1];
      ghost var m := Now();
      RollbackAllowed(checkpoints, moments, m);
      checkpoints := checkpoints[..|checkpoints| - 1];
      RestoreEntries(checkpoint);
      order := checkpoint.order;
      moments := moments[..|moments| - 1];
      ok := true;
    }

    /** The loop over the entries. */
    method RestoreEntries(checkpoint: Checkpoint)
      requires forall k | k in checkpoint.entries :: k in objects
      modifies this`tracked, this`objects
      ensures tracked == RolledBack(checkpoint, old(Now())).tracked
              && objects == RolledBack(checkpoint, old(Now())).objects
    {
      hide Restore, RolledBack;
      var entries := checkpoint.entries;
      ghost var m := Now();
      var todo := entries.Keys;
      while todo != {}
        invariant todo <= entries.Keys && objects.Keys == m.objects.Keys
        invariant HalfRestored(entries, todo, m, tracked, objects)
      {
        var k :| k in todo;
        HalfRestoredStep(entries, todo, m, tracked, objects, k);
        var entry := entries[k];
        objects := objects[k := Restore(objects[k], entry)];
        if entry.existed { tracked := tracked[k := entry.tracked]; } else { tracked := tracked - {k}; }
        todo := todo - {k};
      }
      EntriesRestored(checkpoint, m, tracked, objects);
    }
  }

  /** The entries outside `todo` have been given back. */
  ghost predicate HalfRestored(entries: map<Ref, Entry>, todo: set<Ref>, m: Memory,
                               tracked: map<Ref, Tracked>, objects: map<Ref, Entity>)
  {
    && objects.Keys == m.objects.Keys
    && (forall k | k in objects ::
          objects[k] == if k in entries && k !in todo then Restore(m.objects[k], entries[k]) else m.objects[k])
    && (forall k :: k in tracked <==> if k in entries && k !in todo then entries[k].existed else k in m.tracked)
    && (forall k | k in tracked ::
          tracked[k] == if k in entries && k !in todo then entries[k].tracked else m.tracked[k])
  }

  lemma HalfRestoredStep(entries: map<Ref, Entry>, todo: set<Ref>, m: Memory,
                         tracked: map<Ref, Tracked>, objects: map<Ref, Entity>, k: Ref)
    requires HalfRestored(entries, todo, m, tracked, objects) && k in todo && k in entries && k in m.objects
    ensures var tracked' := if entries[k].existed then tracked[k := entries[k].tracked] else tracked - {k};
            HalfRestored(entries, todo - {k}, m, tracked', objects[k := Restore(objects[k], entries[k])])
  {
    hide Restore;
    RestoredObjects(entries, todo, m, objects, k);
    RestoredTracked(entries, todo, m, tracked, k);
  }

  lemma RestoredObjects(entries: map<Ref, Entry>, todo: set<Ref>, m: Memory, objects: map<Ref, Entity>, k: Ref)
    requires k in todo && k in entries && k in m.objects && objects.Keys == m.objects.Keys
    requires forall j | j in objects ::
               objects[j] == if j in entries && j !in todo then Restore(m.objects[j], entries[j]) else m.objects[j]
    ensures var now := objects[k := Restore(objects[k], entries[k])];
            && now.Keys == m.objects.Keys
            && forall j | j in now ::
                 now[j] == if j in entries && j !in todo - {k} then Restore(m.objects[j], entries[j]) else m.objects[j]
  {
    hide Restore;
  }

  lemma RestoredTracked(entries: map<Ref, Entry>, todo: set<Ref>, m: Memory, tracked: map<Ref, Tracked>, k: Ref)
    requires k in todo && k in entries
    requires forall j :: j in tracked <==> if j in entries && j !in todo then entries[j].existed else j in m.tracked
    requires forall j | j in tracked ::
               tracked[j] == if j in entries && j !in todo then entries[j].tracked else m.tracked[j]
    ensures var now := if entries[k].existed then tracked[k := entries[k].tracked] else tracked - {k};
            && (forall j ::
                  j in now <==> if j in entries && j !in todo - {k} then entries[j].existed else j in m.tracked)
            && forall j | j in now ::
                 now[j] == if j in entries && j !in todo - {k} then entries[j].tracked else m.tracked[j]
  {}

  lemma EntriesRestored(c: Checkpoint, m: Memory, tracked: map<Ref, Tracked>, objects: map<Ref, Entity>)
    requires objects.Keys == m.objects.Keys
    requires forall k | k in objects ::
               objects[k] == if k in c.entries then Restore(m.objects[k], c.entries[k]) else m.objects[k]
    requires forall k :: k in tracked <==> if k in c.entries then c.entries[k].existed else k in m.tracked
    requires forall k | k in tracked :: tracked[k] == if k in c.entries then c.entries[k].tracked else m.tracked[k]
    ensures tracked == RolledBack(c, m).tracked && objects == RolledBack(c, m).objects
  {
    hide Restore;
    assert tracked.Keys == RolledBack(c, m).tracked.Keys;
    assert objects.Keys == RolledBack(c, m).objects.Keys;
  }

  lemma RollbackAllowed(cs: seq<Checkpoint>, moments: seq<Moment>, m: Memory)
    requires AllKept(cs, moments, m) && cs != []
    ensures |cs| == |moments| && forall k | k in cs[|cs| - 1].entries :: k in m.objects
    ensures AllKept(cs[..|cs| - 1], moments[..|cs| - 1], RolledBack(cs[|cs| - 1], m))
    ensures RolledBack(cs[|cs| - 1], m) == Back(moments[|cs| - 1], m)
    ensures RolledBack(cs[|cs| - 1], m).order == cs[|cs| - 1].order
  {
    hide RolledBack, Back;
    RollbackKeeps(cs, moments, m);
    RollbackIsBack(cs[|cs| - 1], moments[|cs| - 1], m);
    RollbackOrder(cs[|cs| - 1], m);
  }

  lemma RollbackOrder(c: Checkpoint, m: Memory)
    ensures RolledBack(c, m).order == c.order
  {}

  // ----- whole histories

  datatype Action =
    | Tracks(k: Ref, t: Tracked)
    | Erases(k: Ref)
    | Assigns(k: Ref, e: Entity)
    | Refreshes(k: Ref)
    | Marks(k: Ref, s: Status)
    | Scope(body: seq<Action>, keep: bool)   // a nested checkpoint, committed or rolled back

  lemma OrderIsTracked(u: UnitOfWork)
    requires u.Valid()
    ensures WellFormed(u.Now()) && forall k :: k in u.order <==> k in u.tracked
  {}

  lemma TrackedIsThere(u: UnitOfWork, k: Ref)
    requires u.Valid() && k in u.tracked
    ensures WellFormed(u.Now()) && k in u.objects && u.tracked[k].primaryKey in u.objects[k].columns
  {}

  lemma SameDepth(u: UnitOfWork)
    requires u.Valid()
    ensures |u.checkpoints| == |u.moments|
  {}

  /** One action. `sights` are the entities that it tracks, as they are then. */
  method Perform(u: UnitOfWork, a: Action) returns (ghost sights: seq<Sight>)
    requires u.Valid()
    modifies u
    ensures u.Valid() && Saw(old(u.moments), sights, u.moments)
    ensures a.Tracks? ==>
              sights == if a.k in old(u.objects) && a.t.primaryKey in old(u.objects)[a.k].columns
                        then [Sight(a.k, old(u.objects)[a.k])] else []
    ensures !a.Tracks? && !a.Scope? ==> sights == []
    decreases a, 0
  {
    hide AllKept, Back, Without, Witnessed, FirstsAfter;
    SameDepth(u);
    SawNothing(u.moments);
    sights := [];
    match a {
      case Tracks(k, t) =>
        if k in u.objects && t.primaryKey in u.objects[k].columns {
          sights := [Sight(k, u.objects[k])];
          u.Track(k, t);
        }
      case Erases(k) => u.Erase(k);
      case Assigns(k, e) =>
        if k in u.objects ==> e.columns.Keys == u.objects[k].columns.Keys {
          u.Assign(k, e);
        }
      case Refreshes(k) => u.RefreshSnapshot(k);
      case Marks(k, s) => u.SetStatus(k, s);
      case Scope(body, keep) =>
        u.BeginCheckpoint();
        sights := PerformAll(u, body);
        SameDepth(u);
        if keep {
          var _ := u.CommitCheckpoint();
        } else {
          var _ := u.RollbackCheckpoint();
        }
    }
  }

  method PerformAll(u: UnitOfWork, actions: seq<Action>) returns (ghost sights: seq<Sight>)
    requires u.Valid()
    modifies u
    ensures u.Valid() && Saw(old(u.moments), sights, u.moments)
    decreases actions, 1
  {
    sights := [];
    SawNothing(u.moments);
    for i := 0 to |actions|
      invariant u.Valid() && Saw(old(u.moments), sights, u.moments)
    {
      ghost var before := u.moments;
      ghost var more := Perform(u, actions[i]);
      SawMore(old(u.moments), sights, before, more, u.moments);
      sights := sights + more;
    }
  }

  /** Rolling back undoes every history since the checkpoint, nested checkpoints included. Entities that were
      tracked for the first time since are tracked no more, with the values that they had then. */
  method Undo(u: UnitOfWork, actions: seq<Action>) returns (ghost sights: seq<Sight>)
    requires u.Valid()
    modifies u
    ensures u.Valid() && u.tracked == old(u.tracked) && u.order == old(u.order)
    ensures forall k | k in old(u.tracked) :: k in u.objects && u.objects[k] == old(u.objects)[k]
    ensures forall i | 0 <= i < |sights| && sights[i].k !in old(u.tracked)
                       && (forall j | 0 <= j < i :: sights[j].k != sights[i].k) ::
              sights[i].k !in u.tracked && sights[i].k in u.objects && u.objects[sights[i].k] == sights[i].e
  {
    ghost var s := Moment(u.Now(), map[]);
    SameDepth(u);
    u.BeginCheckpoint();
    sights := PerformAll(u, actions);
    SameDepth(u);
    ghost var top := u.moments[|u.moments| - 1];
    assert top == s.(firsts := FirstsAfter(s, sights));
    var _ := u.RollbackCheckpoint();
    forall i | 0 <= i < |sights| && sights[i].k !in s.memory.tracked
               && (forall j | 0 <= j < i :: sights[j].k != sights[i].k)
      ensures sights[i].k in top.firsts && top.firsts[sights[i].k] == sights[i].e
    {
      FirstCounts(s, sights, i);
    }
  }
}
