/** The session: transaction scopes that nest, each with a savepoint in the database and a
    checkpoint in memory. */
module Sessions {
  import opened Checkpoints
  import opened Database
  import opened Flushing
  import opened WriteBacks
  import opened UnitsOfWork
  import opened Scopes

  /** How a scope that was begun has ended. */
  datatype Outcome = Outcome(name: nat, committed: bool)

  /** After a failure nothing commits. */
  ghost predicate FailuresStick(log: seq<Outcome>) {
    forall i, j | 0 <= i < j < |log| :: log[j].committed ==> log[i].committed
  }

  ghost predicate SomeFailed(log: seq<Outcome>) {
    exists o :: o in log && !o.committed
  }

  /** Savepoint names, each new one larger than all before it, up to `top`. */
  ghost predicate Rising(names: seq<nat>, top: nat) {
    && (forall i, j | 0 <= i < j < |names| :: names[i] < names[j])
    && (forall n | n in names :: n <= top)
  }

  ghost function Names(saves: seq<Savepoint>): seq<nat> {
    seq(|saves|, i requires 0 <= i < |saves| => saves[i].name)
  }

  /** How an entity is tracked at first: with a key it stands for its row, without one it is yet to get one. */
  ghost predicate Persisted(t: Tracked, e: Entity, table: string, primaryKey: string, generated: bool) {
    && t.table == table && t.primaryKey == primaryKey && t.generated == generated
    && (HasIdentity(t, e) ==> t.status == Managed && t.original == e.columns)
    && (!HasIdentity(t, e) ==> t.status == New && t.original == map[])
  }

  /** Whether it has a key is not a matter of its status or of what is remembered. */
  lemma KeyDecides(t: Tracked, u: Tracked, e: Entity)
    requires t.primaryKey == u.primaryKey && t.generated == u.generated
    ensures HasIdentity(t, e) == HasIdentity(u, e)
  {}

  class Session {
    const executor: Executor
    const work: UnitOfWork
    const savepointSupport: bool
    var depth: nat
    var savepointCounter: nat
    var rollbackOnly: bool
    /** The scopes that have ended since the outermost began, in the order in which they ended. */
    ghost var log: seq<Outcome>
    /** The savepoint names used since the outermost scope began. */
    ghost var names: seq<nat>

    ghost predicate Valid()
      reads this, executor, work
    {
      && work.executor == executor && executor.Valid() && work.Valid()
      && |work.checkpoints| == depth
      && (depth == 0 ==> !rollbackOnly && savepointCounter == 0)
      && (depth > 0 ==>
            && executor.open
            && Rising(names, savepointCounter) && Rising(Names(executor.savepoints), savepointCounter)
            && FailuresStick(log) && (rollbackOnly <==> SomeFailed(log)))
    }

    constructor (executor: Executor, work: UnitOfWork, savepointSupport: bool)
      requires executor.Valid() && work.Valid() && work.executor == executor && work.checkpoints == []
      ensures Valid() && this.executor == executor && this.work == work && depth == 0
    {
      this.executor, this.work, this.savepointSupport := executor, work, savepointSupport;
      depth, savepointCounter, rollbackOnly := 0, 0, false;
      log, names := [], [];
    }

    // ----- tracking

    method PersistEntity(k: Ref, table: string, primaryKey: string, generated: bool)
      requires Valid()
      modifies work
      ensures Valid() && Prolongs(old(work.moments), work.moments)
      ensures work.Whole() == PersistEnd(old(work.Whole()), k, table, primaryKey, generated)
      ensures Saw(old(work.moments), StepSights(old(work.Whole()), Persist(k, table, primaryKey, generated), Plain),
                  work.moments)
      ensures work.objects == old(work.objects)
      // one that is tracked: a removed entity is managed again, with what was remembered of it
      ensures k in old(work.tracked) ==>
                && work.order == old(work.order) && work.identities == old(work.identities)
                && work.tracked == if old(work.tracked)[k].status == Removed
                                   then old(work.tracked)[k := old(work.tracked)[k].(status := Managed)]
                                   else old(work.tracked)
      // one that is not: managed as it is if it has a key, else new
      ensures k !in old(work.tracked) && k in work.objects && primaryKey in work.objects[k].columns ==>
                && k in work.tracked && Persisted(work.tracked[k], work.objects[k], table, primaryKey, generated)
                && work.tracked == old(work.tracked)[k := work.tracked[k]] && work.order == old(work.order) + [k]
                && work.identities == Registered(old(work.identities), work.tracked[k], work.objects[k], k)
    {
      hide AllKept, Witnessed, Saw, HasIdentity, Registered;
      SawNothing(work.moments);
      if k in work.tracked {
        if work.tracked[k].status == Removed { work.SetStatus(k, Managed); }
      } else if k in work.objects && primaryKey in work.objects[k].columns {
        var e := work.objects[k];
        var t := Tracked(New, table, primaryKey, generated, map[]);
        if HasIdentity(t, e) {
          t := t.(status := Managed, original := e.columns);
          KeyDecides(t, t.(status := New, original := map[]), e);
        }
        work.Track(k, t);
        work.RegisterIdentity(k);
      }
    }

    /** Flushes twice: the second flush writes what relation changes have added. Without those it finds
        nothing to write, and both together are one flush. */
    method FlushPipeline() returns (ok: bool, ghost log: seq<RowWrite>, ghost lost: RowWrite)
      requires work.executor == executor && executor.Valid() && work.Valid()
      modifies work`tracked, work`objects, work`order, work`identities, executor
      ensures executor.Valid() && work.Valid()
      ensures work.StatementOnly(old(executor.open), old(executor.savepoints), old(executor.committed))
      ensures work.Answered(ok, old(executor.refusals), old(executor.stuck))
      ensures Tried(old(work.Whole()), log, lost) && work.Whole() == AfterFlush(old(work.Whole()), log, lost)
      ensures ok ==> |log| == |old(work.order)| && lost == Skips
      ensures ok ==> forall k | k in work.tracked :: Unchanged(work.Now(), k)
      ensures ok && Remembered(old(work.Now()), old(executor.working)) ==>
                WritesBackExactly(old(work.Now()), old(executor.working), log, work.Now(), executor.working)
    {
      hide Tried, AfterFlush, Unchanged, WritesBackExactly, Remembered, AllKept, FoundRightly, Progress;
      ok, log, lost := work.Flush();
      if ok {
        var again, _, _ := work.Flush();
        ok := again;
      }
    }

    // ----- scopes

    /** What is tracked, its order and its values are those of `m`. */
    ghost predicate MemoryIs(m: Memory)
      reads work
    {
      && work.tracked == m.tracked && work.order == m.order
      && forall k | k in m.tracked :: k in work.objects && k in m.objects && work.objects[k] == m.objects[k]
    }

    /** The end of a scope in memory: the counters go back once the outermost has ended. */
    method FinishScope()
      requires depth > 0
      modifies this`depth, this`rollbackOnly, this`savepointCounter
      ensures depth == old(depth) - 1
      ensures rollbackOnly == (old(rollbackOnly) && depth > 0)
      ensures savepointCounter == if depth > 0 then old(savepointCounter) else 0
    {
      depth := depth - 1;
      if depth == 0 {
        rollbackOnly := false;
        savepointCounter := 0;
      }
    }

    /** Errors of the executor on the way back are swallowed. */
    method RollbackScope(outermost: bool, name: nat, ghost index: int) returns (ghost undone: bool)
      requires Valid() && depth > 0 && (outermost <==> depth == 1)
      requires !outermost ==> 0 <= index < |executor.savepoints| && executor.savepoints[index].name == name
      modifies this, work, executor
      ensures Valid() && depth == old(depth) - 1
      ensures executor.committed == old(executor.committed)
      ensures work.moments == old(work.moments)[..|old(work.moments)| - 1]
      ensures work.Now() == Back(old(work.moments)[|old(work.moments)| - 1], old(work.Now()))
      ensures executor.stuck == old(executor.stuck) + (if undone then 0 else 1)
      ensures executor.refusals == old(executor.refusals)
      ensures !undone ==> executor.working == old(executor.working)
      ensures work.identities == IdentitiesOf(work.Now(), work.order)
      ensures names == old(names) && (!outermost ==> rollbackOnly)
      ensures !outermost ==>
                executor.savepoints
                == old(executor.savepoints)[..if undone then index + 1 else |old(executor.savepoints)|]
      ensures !outermost && undone ==> executor.working == old(executor.savepoints)[index].rows
      ensures !outermost ==> executor.open
      ensures outermost && undone ==> !executor.open && executor.working == old(executor.committed)
      ensures log == old(log) + [Outcome(name, false)]
      ensures FailuresStick(log)
    {
      hide AllKept, Rising, FailuresStick, SomeFailed, Back;
      SameDepth(work);
      if outermost {
        undone := executor.Rollback();
      } else {
        rollbackOnly := true;
        LatestIs(executor.savepoints, name, index, savepointCounter);
        undone := executor.RollbackTo(name);
        PrefixRises(old(executor.savepoints), executor.savepoints, savepointCounter);
      }
      FailureEnds(log, name);
      log := log + [Outcome(name, false)];
      var _ := work.RollbackCheckpoint();
      work.RebuildIdentities();
      FinishScope();
    }

    /** Begins a transaction or sets a savepoint under a new name, and takes a checkpoint. */
    method OpenScope(outermost: bool) returns (begun: bool, name: nat)
      requires Valid() && (outermost <==> depth == 0)
      modifies this, work`checkpoints, work`moments, executor
      ensures Valid() && executor.committed == old(executor.committed) && executor.working == old(executor.working)
      ensures executor.stuck == old(executor.stuck) && executor.refusals >= old(executor.refusals)
      ensures !begun ==> executor.refusals > old(executor.refusals) || (!outermost && !savepointSupport)
      ensures depth == (if begun then old(depth) + 1 else old(depth)) && rollbackOnly == old(rollbackOnly)
      ensures work.moments == if begun then old(work.moments) + [Moment(work.Now(), map[])] else old(work.moments)
      ensures begun && outermost ==> log == [] && names == [] && name == 0 && executor.working == executor.committed
      ensures begun && !outermost ==> savepointSupport
      ensures !outermost ==>
                executor.open && log == old(log) && old(names) <= names
      ensures !outermost ==> executor.savepoints == old(executor.savepoints)
                                                    + if begun then [Savepoint(name, executor.working)] else []
    {
      hide AllKept;
      name := 0;
      if outermost {
        rollbackOnly := false;
        begun := executor.Begin();
        if !begun { return; }
        log, names := [], [];
      } else {
        if !savepointSupport { return false, name; }
        savepointCounter := savepointCounter + 1;
        name := savepointCounter;
        NameRises(names, name);
        NameRises(Names(executor.savepoints), name);
        names := names + [name];
        begun := executor.SetSavepoint(name);
        assert begun ==> Names(executor.savepoints) == Names(old(executor.savepoints)) + [name];
        if !begun { return; }
      }
      work.BeginCheckpoint();
      depth := depth + 1;
    }

    /** Flushes, commits or releases the savepoint, and forgets the checkpoint. */
    method CompleteScope(outermost: bool, name: nat, ghost index: int)
      returns (done: bool, ghost writes: seq<RowWrite>, ghost lost: RowWrite)
      requires Valid() && depth > 0 && (outermost <==> depth == 1)
      requires !outermost ==> 0 <= index < |executor.savepoints| && executor.savepoints[index].name == name
      modifies this, work, executor
      ensures Valid() && names == old(names) && executor.stuck == old(executor.stuck)
      // what is tracked is written first, unless a scope has failed
      ensures Tried(old(work.Whole()), writes, lost)
      ensures work.Whole() == AfterFlush(old(work.Whole()), writes, lost)
      ensures old(rollbackOnly) ==> !done && writes == [] && lost == Skips
      ensures done ==> |writes| == |old(work.order)| && lost == Skips
      ensures done ==> forall k | k in work.tracked :: Unchanged(work.Now(), k)
      ensures executor.refusals >= old(executor.refusals)
      ensures !done ==> executor.refusals > old(executor.refusals) || old(rollbackOnly)
      ensures !done ==> work.moments == old(work.moments) && depth == old(depth)
      ensures !done ==> executor.open && executor.committed == old(executor.committed) && log == old(log)
      ensures !done ==> executor.savepoints == old(executor.savepoints) && rollbackOnly == old(rollbackOnly)
      ensures done ==> work.moments == old(work.moments)[..|old(work.moments)| - 1] && depth == old(depth) - 1
      ensures done ==>
                log == old(log) + [Outcome(name, true)] && !SomeFailed(log) && FailuresStick(log) && !rollbackOnly
      ensures done && outermost ==> !executor.open && executor.committed == executor.working
      ensures done && !outermost ==> executor.open && executor.committed == old(executor.committed)
      ensures done && !outermost ==> executor.savepoints == old(executor.savepoints)[..index]
    {
      hide AllKept, Rising, FailuresStick, SomeFailed, Remembered, Tried, AfterFlush, WritesBackExactly, Unchanged;
      SameDepth(work);
      if rollbackOnly {
        NothingTried(work);
        return false, [], Skips;
      }
      done, writes, lost := FlushPipeline();
      if !done || rollbackOnly { return; }
      if outermost {
        done := executor.Commit();
      } else {
        LatestIs(executor.savepoints, name, index, savepointCounter);
        done := executor.Release(name);
        PrefixRises(old(executor.savepoints), executor.savepoints, savepointCounter);
      }
      if !done { return; }
      var _ := work.CommitCheckpoint();
      SuccessEnds(log, name);
      log := log + [Outcome(name, true)];
      FinishScope();
    }

    /** One transaction scope, and what became of it. */
    method Transaction(body: seq<Step>) returns (ok: bool, ghost a: Answer)
      requires Valid()
      modifies this, work, executor
      ensures Valid() && depth == old(depth) && Prolongs(old(work.moments), work.moments)
      // memory, identities and rows are those that the steps and the flush at the end make, or as they were
      ensures a.Scoped? && ok == a.done && ScopePossible(old(work.Whole()), body, a, old(rollbackOnly))
      ensures work.Whole() == ScopeEnd(old(work.Whole()), body, a)
      ensures Saw(old(work.moments), ScopeSights(old(work.Whole()), body, a), work.moments)
      ensures ok ==> a.begun && forall k | k in work.tracked :: Unchanged(work.Now(), k)
      // nothing fails without a reason, and whatever failed is taken back unless the database refuses
      ensures !ok ==>
                || executor.refusals > old(executor.refusals) || old(rollbackOnly)
                || MayRaise(body, savepointSupport) || (depth > 0 && !savepointSupport)
      ensures executor.refusals >= old(executor.refusals) && executor.stuck == old(executor.stuck) + Stuck(a)
      // where it failed, memory is as it was
      ensures !ok ==> MemoryIs(old(work.Now()))
      ensures !a.begun ==> work.Now() == old(work.Now()) && work.identities == old(work.identities)
      ensures a.begun && !ok ==> work.identities == IdentitiesOf(work.Now(), work.order)
      // an inner scope
      ensures depth > 0 ==>
                InnerKeeps(old(executor.committed), old(executor.savepoints), old(log), old(names), old(rollbackOnly))
      ensures depth > 0 && ok ==> !rollbackOnly
      // a scope whose savepoint the database refused leaves no trace
      ensures depth > 0 && !ok ==> (rollbackOnly <==> a.begun || old(rollbackOnly))
      ensures depth > 0 && !a.begun ==> log == old(log)
      ensures depth > 0 && !savepointSupport ==> !a.begun
      ensures depth > 0 && a.begun ==> |log| > |old(log)| && log[|log| - 1].committed == ok
      ensures depth > 0 && a.begun && !ok ==> rollbackOnly && (a.undone ==> executor.working == old(executor.working))
      // the outermost scope
      ensures depth == 0 && !ok ==> executor.committed == old(executor.committed)
      ensures depth == 0 && a.undone ==> !executor.open && executor.working == old(executor.working)
      ensures depth == 0 && ok ==> !executor.open && executor.committed == executor.working
      ensures depth == 0 && a.begun ==> FailuresStick(log) && log != [] && log[|log| - 1] == Outcome(0, ok)
      ensures depth == 0 && a.begun ==> exists top :: Rising(names, top)
      ensures depth == 0 && ok ==> !SomeFailed(log)
      decreases body, 2
    {
      hide AllKept, Rising, FailuresStick, SomeFailed, Session.MemoryIs, WellFormed, IdentitiesOf, ScopePossible,
           ScopeEnd, StepsSights, Saw, Unchanged, Stuck, MayRaise;
      var outermost := depth == 0;
      ghost var v, moments, index := work.Whole(), work.moments, |executor.savepoints|;
      var begun, name := OpenScope(outermost);
      if !begun {
        MemoryIsNow(this);
        a := Scoped(false, [], false, [], Skips, false, false);
        NotBegun(v, body, a, rollbackOnly);
        SawNothing(moments);
        return false, a;
      }
      SameDepth(work);
      ok, a := RunScope(body, outermost, name, index);
      SawInside(moments, v, body, a, work.moments);
    }

    /** An open scope: the callback, and then the end, one way or the other. */
    method RunScope(body: seq<Step>, outermost: bool, name: nat, ghost index: nat) returns (ok: bool, ghost a: Answer)
      requires Valid() && depth > 0 && (outermost <==> depth == 1)
      requires outermost ==> log == [] && names == [] && name == 0 && executor.committed == executor.working
      requires !outermost ==>
                 index < |executor.savepoints| && executor.savepoints[index] == Savepoint(name, executor.working)
      requires |work.moments| > 0 && work.moments[|work.moments| - 1] == Moment(work.Now(), map[])
      modifies this, work, executor
      ensures Valid() && depth == old(depth) - 1
      ensures a.Scoped? && a.begun && ok == a.done && ScopePossible(old(work.Whole()), body, a, old(rollbackOnly))
      ensures work.Whole() == ScopeEnd(old(work.Whole()), body, a)
      ensures Saw(old(work.moments)[..|old(work.moments)| - 1], StepsSights(old(work.Whole()), body, a.inner),
              work.moments)
      ensures ok ==> forall k | k in work.tracked :: Unchanged(work.Now(), k)
      ensures !ok ==>
                executor.refusals > old(executor.refusals) || old(rollbackOnly) || MayRaise(body, savepointSupport)
      ensures executor.refusals >= old(executor.refusals) && executor.stuck == old(executor.stuck) + Stuck(a)
      ensures Prolongs(old(work.moments)[..|old(work.moments)| - 1], work.moments)
      ensures !ok ==> MemoryIs(old(work.Now()))
      ensures !ok ==> work.identities == IdentitiesOf(work.Now(), work.order)
      ensures !ok || !outermost ==> executor.committed == old(executor.committed)
      ensures log != [] && log[|log| - 1] == Outcome(name, ok)
      // an inner scope
      ensures !outermost ==> executor.open && old(executor.savepoints)[..index] <= executor.savepoints
      ensures !outermost ==> old(log) <= log && |log| > |old(log)| && old(names) <= names
      ensures !outermost ==> (ok ==> !rollbackOnly && !old(rollbackOnly)) && (!ok ==> rollbackOnly)
      ensures !outermost && a.undone ==> !ok && executor.working == old(executor.working)
      // the outermost scope
      ensures outermost && a.undone ==> !ok && !executor.open && executor.working == executor.committed
      ensures outermost && ok ==> !executor.open && executor.committed == executor.working && !SomeFailed(log)
      ensures outermost ==> FailuresStick(log) && exists top :: Rising(names, top)
      decreases body, 1
    {
      hide AllKept, Rising, FailuresStick, SomeFailed, Session.MemoryIs, WellFormed, IdentitiesOf, ScopePossible,
           ScopeEnd, StepsEnd, StepsSights, StepsPossible, Saw, Unchanged, Stuck, StuckIn, MayRaise, Tried,
           AfterFlush, Back, Spoils;
      ghost var v, spoiled := work.Whole(), rollbackOnly;
      SameDepth(work);
      OrderIsTracked(work);
      ghost var inner;
      ok, inner := RunSteps(body);
      ghost var through, writes, lost := ok, [], Skips;
      SameDepth(work);
      TopSaw(old(work.moments), StepsSights(v, body, inner), work.moments);
      ghost var top := work.moments[|work.moments| - 1];
      assert exists top :: Rising(names, top);
      ghost var undone;
      ok, writes, lost, undone := EndScope(ok, outermost, name, index);
      if !ok { BackIsMemory(this, top, v.memory); }
      a := Scoped(true, inner, through, writes, lost, ok, undone);
      ScopeRan(v, body, a, spoiled, top, work.Whole());
    }

    /** The end of a scope whose callback came through, or did not. */
    method EndScope(through: bool, outermost: bool, name: nat, ghost index: nat)
      returns (done: bool, ghost writes: seq<RowWrite>, ghost lost: RowWrite, ghost undone: bool)
      requires Valid() && depth > 0 && (outermost <==> depth == 1) && |work.moments| > 0
      requires !outermost ==> index < |executor.savepoints| && executor.savepoints[index].name == name
      modifies this, work, executor
      ensures Valid() && depth == old(depth) - 1 && names == old(names)
      ensures work.moments == old(work.moments)[..|old(work.moments)| - 1]
      ensures Tried(old(work.Whole()), writes, lost)
      ensures !through || old(rollbackOnly) ==> !done && writes == [] && lost == Skips
      ensures done ==> !undone && |writes| == |old(work.order)| && lost == Skips
      ensures done ==> forall k | k in work.tracked :: Unchanged(work.Now(), k)
      ensures var end := AfterFlush(old(work.Whole()), writes, lost);
              if done then work.Whole() == end
              else
                && work.Now() == Back(old(work.moments)[|old(work.moments)| - 1], end.memory)
                && work.identities == IdentitiesOf(work.Now(), work.order)
                && executor.working == if !undone then end.rows else if outermost then old(executor.committed)
                                       else old(executor.savepoints)[index].rows
      ensures !done ==> executor.refusals > old(executor.refusals) || old(rollbackOnly) || !through
      ensures executor.refusals >= old(executor.refusals)
      ensures executor.stuck == old(executor.stuck) + (if done || undone then 0 else 1)
      ensures log == old(log) + [Outcome(name, done)] && FailuresStick(log) && (done ==> !SomeFailed(log))
      ensures !done || !outermost ==> executor.committed == old(executor.committed)
      ensures !outermost ==> executor.open && old(executor.savepoints)[..index] <= executor.savepoints
      ensures !outermost ==> rollbackOnly == !done && (done ==> !old(rollbackOnly))
      ensures outermost && (done || undone) ==> !executor.open && executor.committed == executor.working
    {
      hide AllKept, Rising, FailuresStick, SomeFailed, Session.MemoryIs, WellFormed, IdentitiesOf, Unchanged, Tried,
           AfterFlush, Back;
      done, writes, lost, undone := false, [], Skips, false;
      if through {
        done, writes, lost := CompleteScope(outermost, name, index);
      } else {
        NothingTried(work);
      }
      if !done {
        SameDepth(work);
        undone := RollbackScope(outermost, name, index);
      }
    }

    /** Commits what is tracked, outside every scope. */
    method Commit() returns (ok: bool, ghost log: seq<RowWrite>)
      requires Valid() && depth == 0
      modifies work, executor
      ensures Valid() && work.moments == old(work.moments)
      ensures ok ==> !executor.open && executor.committed == executor.working
      ensures ok ==> Tried(old(work.Whole()), log, Skips) && work.Whole() == AfterFlush(old(work.Whole()), log, Skips)
      ensures ok ==> |log| == |old(work.order)| && forall k | k in work.tracked :: Unchanged(work.Now(), k)
      ensures ok && Remembered(old(work.Now()), old(executor.working)) ==>
                WritesBackExactly(old(work.Now()), old(executor.working), log, work.Now(), executor.committed)
      ensures !ok ==> executor.refusals > old(executor.refusals)
      ensures !ok ==> executor.committed == old(executor.committed) && work.Now() == old(work.Now())
      ensures !ok ==> !executor.open || executor.stuck > old(executor.stuck)
      ensures !ok ==> work.identities == IdentitiesOf(work.Now(), work.order)
    {
      hide AllKept, Flushed, WritesBackExactly, Remembered, Rising, FailuresStick, SomeFailed, Back, Session.MemoryIs,
           Tried, AfterFlush, Unchanged;
      SameDepth(work);
      ghost var v, lost := work.Whole(), Skips;
      work.BeginCheckpoint();
      ok, log, lost := WriteAll();
      if ok {
        var _ := work.CommitCheckpoint();
      } else {
        BackFromFlush(v, log, lost);
        TakeBack(v.memory);
      }
    }

    /** One database transaction around the flushes. */
    method WriteAll() returns (ok: bool, ghost log: seq<RowWrite>, ghost lost: RowWrite)
      requires work.executor == executor && executor.Valid() && work.Valid()
      modifies work`tracked, work`objects, work`order, work`identities, executor
      ensures executor.Valid() && work.Valid()
      ensures Tried(old(work.Whole()), log, lost) && work.Whole() == AfterFlush(old(work.Whole()), log, lost)
      ensures ok ==> !executor.open && executor.committed == executor.working
      ensures ok ==> |log| == |old(work.order)| && lost == Skips
      ensures ok ==> forall k | k in work.tracked :: Unchanged(work.Now(), k)
      ensures ok && Remembered(old(work.Now()), old(executor.working)) ==>
                WritesBackExactly(old(work.Now()), old(executor.working), log, work.Now(), executor.committed)
      ensures executor.stuck == old(executor.stuck) && executor.refusals >= old(executor.refusals)
      ensures !ok ==> executor.committed == old(executor.committed) && executor.refusals > old(executor.refusals)
    {
      hide AllKept, Flushed, WritesBackExactly, Remembered, Tried, AfterFlush, Unchanged;
      NothingTried(work);
      log, lost := [], Skips;
      ok := executor.Begin();
      if ok { ok, log, lost := FlushPipeline(); }
      if ok { ok := executor.Commit(); }
    }

    /** Rolls back database and memory after an error. */
    method TakeBack(ghost m: Memory)
      requires work.executor == executor && executor.Valid() && work.Valid() && |work.checkpoints| == 1
      requires |work.moments| == 1 && work.moments[0] == Moment(m, map[])
      modifies work, executor
      ensures executor.Valid() && work.Valid() && work.checkpoints == [] && work.moments == []
      ensures executor.committed == old(executor.committed) && executor.refusals == old(executor.refusals)
      ensures !executor.open || executor.stuck > old(executor.stuck)
      ensures work.Now() == Back(Moment(m, map[]), old(work.Now()))
      ensures work.identities == IdentitiesOf(work.Now(), work.order)
    {
      hide AllKept, Back;
      var _ := executor.Rollback();
      var _ := work.RollbackCheckpoint();
      work.RebuildIdentities();
    }

    /** What no inner scope and no step of a callback changes: the committed rows, the savepoints set
        before, the record, and a failure. */
    ghost predicate InnerKeeps(committed: Rows, saves: seq<Savepoint>, log0: seq<Outcome>, names0: seq<nat>,
                               failed: bool)
      reads this, executor
    {
      && executor.open && executor.committed == committed && saves <= executor.savepoints
      && log0 <= log && names0 <= names && (failed ==> rollbackOnly)
    }

    /** The steps of a callback, up to the first that does not go on. */
    method RunSteps(steps: seq<Step>) returns (ok: bool, ghost answers: seq<Answer>)
      requires Valid() && depth > 0
      modifies this, work, executor
      ensures Valid() && depth == old(depth) && Prolongs(old(work.moments), work.moments)
      ensures StepsPossible(old(work.Whole()), steps, answers, ok, old(rollbackOnly))
      ensures work.Whole() == StepsEnd(old(work.Whole()), steps, answers)
      ensures Saw(old(work.moments), StepsSights(old(work.Whole()), steps, answers), work.moments)
      ensures rollbackOnly == (old(rollbackOnly) || Spoils(answers))
      ensures rollbackOnly || !ok ==>
                executor.refusals > old(executor.refusals) || old(rollbackOnly) || MayRaise(steps, savepointSupport)
      ensures executor.refusals >= old(executor.refusals) && executor.stuck == old(executor.stuck) + StuckIn(answers)
      ensures InnerKeeps(old(executor.committed), old(executor.savepoints), old(log), old(names), old(rollbackOnly))
      decreases steps, 0
    {
      hide AllKept, Rising, FailuresStick, SomeFailed, WellFormed, StepPossible, StepEnd, StepsEnd, StepSights,
           StepsSights, WentOn, StepsPossible, Saw, Stuck, StuckIn, MayRaise, Spoils, Prolongs;
      ghost var v, spoiled := work.Whole(), rollbackOnly;
      answers := [];
      NoSteps(v, steps, work.moments, spoiled);
      for i := 0 to |steps|
        invariant Valid() && depth == old(depth) && |answers| == i && Prolongs(old(work.moments), work.moments)
        invariant WentOn(v, steps, answers, spoiled) && work.Whole() == StepsEnd(v, steps, answers)
        invariant Saw(old(work.moments), StepsSights(v, steps, answers), work.moments)
        invariant rollbackOnly == (spoiled || Spoils(answers))
        invariant rollbackOnly ==>
                    executor.refusals > old(executor.refusals) || spoiled || MayRaise(steps, savepointSupport)
        invariant executor.refusals >= old(executor.refusals)
        invariant executor.stuck == old(executor.stuck) + StuckIn(answers)
        invariant InnerKeeps(old(executor.committed), old(executor.savepoints), old(log), old(names), spoiled)
      {
        ghost var mid := work.moments;
        ghost var a;
        ok, a := RunStep(steps[i]);
        OneMoreStep(v, steps, answers, a, ok, spoiled, old(work.moments), mid, work.moments);
        MayRaiseOne(steps, i, savepointSupport);
        ProlongsMore(old(work.moments), mid, work.moments);
        answers := answers + [a];
        if !ok { return; }
      }
      ok := true;
      AllWentOn(v, steps, answers, spoiled);
    }

    /** One step of a callback. */
    method RunStep(s: Step) returns (ok: bool, ghost a: Answer)
      requires Valid() && depth > 0
      modifies this, work, executor
      ensures Valid() && depth == old(depth) && Prolongs(old(work.moments), work.moments)
      ensures StepPossible(old(work.Whole()), s, a, ok, old(rollbackOnly))
      ensures work.Whole() == StepEnd(old(work.Whole()), s, a)
      ensures Saw(old(work.moments), StepSights(old(work.Whole()), s, a), work.moments)
      ensures rollbackOnly == (old(rollbackOnly) || Spoils([a]))
      ensures rollbackOnly || !ok ==>
                executor.refusals > old(executor.refusals) || old(rollbackOnly) || MayRaise([s], savepointSupport)
      ensures executor.refusals >= old(executor.refusals) && executor.stuck == old(executor.stuck) + Stuck(a)
      ensures InnerKeeps(old(executor.committed), old(executor.savepoints), old(log), old(names), old(rollbackOnly))
      decreases s, 0
    {
      hide AllKept, Rising, FailuresStick, SomeFailed, WellFormed, ScopePossible, ScopeEnd, StepsSights, Saw,
           Unchanged, Tried, AfterFlush, FoundRightly, PersistEnd, IdentitiesOf, StuckIn, WritesBackExactly,
           Remembered, Flushed;
      SawNothing(work.moments);
      SpoilsOne(s, Plain, savepointSupport);
      a, ok := Plain, true;
      match s {
        case Persist(k, table, primaryKey, generated) => PersistEntity(k, table, primaryKey, generated);
        case Remove(k) => if k in work.tracked { work.SetStatus(k, Removed); }
        case Assign(k, e) =>
          if k in work.objects ==> e.columns.Keys == work.objects[k].columns.Keys { work.Assign(k, e); }
        case FlushNow(caught) =>
          var done;
          ghost var writes, lost;
          done, writes, lost := work.Flush();
          a, ok := Flushes(writes, lost, done), done || caught;
          SpoilsOne(s, a, savepointSupport);
        case Nested(inner, caught) =>
          var done;
          done, a := Transaction(inner);
          ok := done || caught;
          SpoilsOne(s, a, savepointSupport);
        case Raise => ok := false;
      }
    }
  }

  /** What the moments of the scopes around one have seen of it. */
  ghost function ScopeSights(v: World, body: seq<Step>, a: Answer): seq<Sight>
    requires a.Scoped?
  {
    if a.begun then StepsSights(v, body, a.inner) else []
  }

  lemma NotBegun(v: World, body: seq<Step>, a: Answer, spoiled: bool)
    requires a == Scoped(false, [], false, [], Skips, false, false)
    ensures ScopePossible(v, body, a, spoiled) && ScopeEnd(v, body, a) == v && Stuck(a) == 0
  {}

  /** What the checkpoint of the scope itself has seen is not wanted any more. */
  lemma SawInside(was: seq<Moment>, v: World, body: seq<Step>, a: Answer, now: seq<Moment>)
    requires a.Scoped? && a.begun && Saw(was, StepsSights(v, body, a.inner), now)
    ensures Saw(was, ScopeSights(v, body, a), now)
  {}

  /** A scope that began, put together. */
  lemma ScopeRan(v: World, body: seq<Step>, a: Answer, spoiled: bool, top: Moment, end: World)
    requires a.Scoped? && a.begun && StepsPossible(v, body, a.inner, a.through, spoiled)
    requires Tried(StepsEnd(v, body, a.inner), a.log, a.lost)
    requires !a.through || spoiled || Spoils(a.inner) ==> !a.done && a.log == [] && a.lost == Skips
    requires a.done ==> !a.undone && |a.log| == |StepsEnd(v, body, a.inner).memory.order| && a.lost == Skips
    requires var s := Moment(v.memory, map[]); top == s.(firsts := FirstsAfter(s, StepsSights(v, body, a.inner)))
    requires var w := AfterFlush(StepsEnd(v, body, a.inner), a.log, a.lost);
             if a.done then end == w
             else end == World(Back(top, w.memory), IdentitiesOf(Back(top, w.memory), Back(top, w.memory).order),
                               if a.undone then v.rows else w.rows)
    ensures ScopePossible(v, body, a, spoiled) && ScopeEnd(v, body, a) == end
    ensures Stuck(a) == StuckIn(a.inner) + if a.done || a.undone then 0 else 1
  {
    hide Tried, AfterFlush, StepsEnd, StepsSights, StepsPossible, Back, IdentitiesOf, FirstsAfter, Spoils;
  }

  /** What the checkpoint of the scope has seen, and those of the scopes around it. */
  lemma TopSaw(was: seq<Moment>, sights: seq<Sight>, now: seq<Moment>)
    requires was != [] && Saw(was, sights, now)
    ensures |now| == |was|
    ensures now[|now| - 1] == was[|was| - 1].(firsts := FirstsAfter(was[|was| - 1], sights))
    ensures Saw(was[..|was| - 1], sights, now[..|now| - 1])
  {}

  lemma NoSteps(v: World, steps: seq<Step>, moments: seq<Moment>, spoiled: bool)
    ensures WentOn(v, steps, [], spoiled) && StepsEnd(v, steps, []) == v && !Spoils([]) && StuckIn([]) == 0
    ensures Saw(moments, StepsSights(v, steps, []), moments) && Prolongs(moments, moments)
  {}

  lemma AllWentOn(v: World, steps: seq<Step>, answers: seq<Answer>, spoiled: bool)
    requires WentOn(v, steps, answers, spoiled) && |answers| == |steps|
    ensures StepsPossible(v, steps, answers, true, spoiled)
  {}

  /** A step after those that were taken. */
  lemma OneMoreStep(v: World, steps: seq<Step>, answers: seq<Answer>, a: Answer, ok: bool, spoiled: bool,
                    was: seq<Moment>, mid: seq<Moment>, now: seq<Moment>)
    requires |answers| < |steps| && WentOn(v, steps, answers, spoiled)
    requires var u := StepsEnd(v, steps, answers);
             && StepPossible(u, steps[|answers|], a, ok, spoiled || Spoils(answers))
             && Saw(was, StepsSights(v, steps, answers), mid) && Saw(mid, StepSights(u, steps[|answers|], a), now)
    ensures var more := answers + [a];
            && (if ok then WentOn(v, steps, more, spoiled) else StepsPossible(v, steps, more, false, spoiled))
            && StepsEnd(v, steps, more) == StepEnd(StepsEnd(v, steps, answers), steps[|answers|], a)
            && Saw(was, StepsSights(v, steps, more), now)
            && Spoils(more) == (Spoils(answers) || Spoils([a])) && StuckIn(more) == StuckIn(answers) + Stuck(a)
  {
    hide Saw, StepPossible, StepEnd, StepSights, Stuck;
    var u, more := StepsEnd(v, steps, answers), answers + [a];
    assert more[..|answers|] == answers && more[|answers|] == a;
    SawMore(was, StepsSights(v, steps, answers), mid, StepSights(u, steps[|answers|], a), now);
    SpoilsMore(answers, a);
  }

  lemma SpoilsMore(answers: seq<Answer>, a: Answer)
    ensures Spoils(answers + [a]) == (Spoils(answers) || Spoils([a]))
  {
    assert forall x :: x in answers + [a] <==> x in answers || x == a;
    assert forall x :: x in [a] <==> x == a;
  }

  lemma SpoilsOne(s: Step, a: Answer, savepoints: bool)
    ensures Spoils([a]) <==> a.Scoped? && a.begun && !a.done
    ensures MayRaise([s], savepoints) <==> s.Raise? || (s.Nested? && (!savepoints || MayRaise(s.body, savepoints)))
  {
    assert a in [a] && s in [s];
  }

  lemma MayRaiseOne(steps: seq<Step>, i: nat, savepoints: bool)
    requires i < |steps|
    ensures MayRaise([steps[i]], savepoints) ==> MayRaise(steps, savepoints)
  {
    assert steps[i] in steps && steps[i] in [steps[i]];
  }

  /** A flush that is taken back has changed no entity that is not tracked. */
  lemma BackFromFlush(v: World, log: seq<RowWrite>, lost: RowWrite)
    requires Tried(v, log, lost)
    ensures Back(Moment(v.memory, map[]), AfterFlush(v, log, lost).memory) == v.memory
  {
    hide Applied, Free, Fits, Done, Kept;
    var u := AfterWrites(v, v.memory.order, log);
    assert Back(Moment(v.memory, map[]), u.memory).objects == v.memory.objects;
  }

  lemma NothingTried(work: UnitOfWork)
    requires work.Valid()
    ensures Tried(work.Whole(), [], Skips) && AfterFlush(work.Whole(), [], Skips) == work.Whole()
  {
    NothingWritten(work.Now(), work.executor.working);
  }

  lemma SameMoment(was: seq<Moment>, now: seq<Moment>)
    requires Prolongs(was, now) && was != []
    ensures |now| == |was| && now[|now| - 1].memory == was[|was| - 1].memory
    ensures Prolongs(was[..|was| - 1], now[..|now| - 1])
  {}

  lemma NameRises(names: seq<nat>, name: nat)
    requires name > 0 && Rising(names, name - 1)
    ensures Rising(names + [name], name) && Rising(names, name)
  {
    assert forall i | 0 <= i < |names| :: names[i] in names;
  }

  lemma BackIsMemory(s: Session, top: Moment, m: Memory)
    requires s.work.Valid() && top.memory == m && WellFormed(m) && exists now :: s.work.Now() == Back(top, now)
    ensures s.MemoryIs(m)
  {}

  lemma ProlongsMore(was: seq<Moment>, mid: seq<Moment>, now: seq<Moment>)
    requires Prolongs(was, mid) && Prolongs(mid, now)
    ensures Prolongs(was, now)
  {}

  lemma MemoryIsNow(s: Session)
    requires s.work.Valid()
    ensures s.MemoryIs(s.work.Now())
  {}

  lemma LatestIs(saves: seq<Savepoint>, name: nat, index: int, top: nat)
    requires Rising(Names(saves), top) && 0 <= index < |saves| && saves[index].name == name
    ensures forall i :: IsLatest(saves, name, i) <==> i == index
  {
    assert forall i | 0 <= i < |saves| :: Names(saves)[i] == saves[i].name;
  }

  lemma PrefixRises(saves: seq<Savepoint>, saves': seq<Savepoint>, top: nat)
    requires Rising(Names(saves), top) && saves' <= saves
    ensures Rising(Names(saves'), top)
  {
    assert forall i | 0 <= i < |saves'| :: Names(saves')[i] == Names(saves)[i];
    assert forall n | n in Names(saves') :: n in Names(saves);
  }

  /** A failure may end any log. */
  lemma FailureEnds(log: seq<Outcome>, name: nat)
    requires FailuresStick(log)
    ensures FailuresStick(log + [Outcome(name, false)]) && SomeFailed(log + [Outcome(name, false)])
  {
    var o := Outcome(name, false);
    assert (log + [o])[|log|] == o;
  }

  /** A success may end a log without failures. */
  lemma SuccessEnds(log: seq<Outcome>, name: nat)
    requires FailuresStick(log) && !SomeFailed(log)
    ensures FailuresStick(log + [Outcome(name, true)]) && !SomeFailed(log + [Outcome(name, true)])
  {}

  /** An entity that is persisted, removed and persisted again is tracked as it was after the first time exactly
      if it had a key. Without one it counts as managed from then on, with nothing remembered. */
  method PersistAgain(s: Session, k: Ref, table: string, primaryKey: string, generated: bool)
    requires s.Valid() && k !in s.work.tracked && k in s.work.objects && primaryKey in s.work.objects[k].columns
    modifies s.work
    ensures s.Valid() && k in s.work.tracked && s.work.objects == old(s.work.objects)
    ensures Persisted(s.work.tracked[k], s.work.objects[k], table, primaryKey, generated)
       <==> HasIdentity(s.work.tracked[k], s.work.objects[k])
    ensures s.work.tracked[k].status == Managed
    ensures !HasIdentity(s.work.tracked[k], s.work.objects[k]) ==> s.work.tracked[k].original == map[]
  {
    s.PersistEntity(k, table, primaryKey, generated);
    s.work.SetStatus(k, Removed);
    s.PersistEntity(k, table, primaryKey, generated);
  }
}
