/** What transaction scopes come to, as a function of what the callbacks do and of what the database answers. */
module Scopes {
  import opened Checkpoints
  import opened Database
  import opened Flushing

  /** What a transaction callback does. An error that it does not catch ends it. */
  datatype Step =
    | Persist(k: Ref, table: string, primaryKey: string, generated: bool)
    | Remove(k: Ref)
    | Assign(k: Ref, e: Entity)
    | FlushNow(caught: bool)
    | Nested(body: seq<Step>, caught: bool)
    | Raise

  /** What became of a step: for a flush the statements that were done, and a row that was lost sight of; for a
      scope whether it began, what became of its steps, whether the callback came through, the flush at its end,
      and whether it is done, or else the database took it back. */
  datatype Answer =
    | Plain
    | Flushes(log: seq<RowWrite>, lost: RowWrite, done: bool)
    | Scoped(begun: bool, inner: seq<Answer>, through: bool, log: seq<RowWrite>, lost: RowWrite, done: bool,
            undone: bool)

  // ----- memory, identities and rows after a step

  /** An entity not tracked before is tracked: with a key as managed, without one as new. A removed one is
      managed again. */
  ghost function PersistEnd(v: World, k: Ref, table: string, primaryKey: string, generated: bool): World {
    var m := v.memory;
    if k in m.tracked then
      if m.tracked[k].status == Removed
      then v.(memory := m.(tracked := m.tracked[k := m.tracked[k].(status := Managed)]))
      else v
    else if k in m.objects && primaryKey in m.objects[k].columns then
      var started := Tracked(New, table, primaryKey, generated, map[]);
      var t := if HasIdentity(started, m.objects[k]) then started.(status := Managed, original := m.objects[k].columns)
               else started;
      World(m.(tracked := m.tracked[k := t], order := m.order + [k]), Registered(v.identities, t, m.objects[k], k),
            v.rows)
    else v
  }

  ghost function RemoveEnd(v: World, k: Ref): World {
    var m := v.memory;
    if k in m.tracked then v.(memory := m.(tracked := m.tracked[k := m.tracked[k].(status := Removed)])) else v
  }

  ghost function AssignEnd(v: World, k: Ref, e: Entity): World {
    var m := v.memory;
    if k in m.objects ==> e.columns.Keys == m.objects[k].columns.Keys
    then v.(memory := m.(objects := m.objects[k := e])) else v
  }

  ghost function StepEnd(v: World, s: Step, a: Answer): World
    decreases s, 0
  {
    match s
    case Persist(k, table, primaryKey, generated) => PersistEnd(v, k, table, primaryKey, generated)
    case Remove(k) => RemoveEnd(v, k)
    case Assign(k, e) => AssignEnd(v, k, e)
    case FlushNow(_) => if a.Flushes? then AfterFlush(v, a.log, a.lost) else v
    case Nested(body, _) => if a.Scoped? then ScopeEnd(v, body, a) else v
    case Raise => v
  }

  /** The steps that were answered, in order. */
  ghost function StepsEnd(v: World, steps: seq<Step>, answers: seq<Answer>): World
    decreases steps, |answers|
  {
    if answers == [] || |answers| > |steps| then v
    else
      var n := |answers| - 1;
      StepEnd(StepsEnd(v, steps, answers[..n]), steps[n], answers[n])
  }

  /** The callback and a flush; and, where that came to nothing, memory as it was at the beginning, identities
      accordingly, and the rows if the database took them back. */
  ghost function ScopeEnd(v: World, body: seq<Step>, a: Answer): World
    requires a.Scoped?
    decreases body, |a.inner| + 1
  {
    if !a.begun then v
    else
      var end := AfterFlush(StepsEnd(v, body, a.inner), a.log, a.lost);
      if a.done then end
      else
        var s := Moment(v.memory, map[]);
        var m := Back(s.(firsts := FirstsAfter(s, StepsSights(v, body, a.inner))), end.memory);
        World(m, IdentitiesOf(m, m.order), if a.undone then v.rows else end.rows)
  }

  /** The entities that a step tracks, as they are then. */
  ghost function StepSights(v: World, s: Step, a: Answer): seq<Sight>
    decreases s, 0
  {
    match s
    case Persist(k, _, primaryKey, _) =>
      if k !in v.memory.tracked && k in v.memory.objects && primaryKey in v.memory.objects[k].columns
      then [Sight(k, v.memory.objects[k])] else []
    case Nested(body, _) => if a.Scoped? && a.begun then StepsSights(v, body, a.inner) else []
    case _ => []
  }

  ghost function StepsSights(v: World, steps: seq<Step>, answers: seq<Answer>): seq<Sight>
    decreases steps, |answers|
  {
    if answers == [] || |answers| > |steps| then []
    else
      var n := |answers| - 1;
      StepsSights(v, steps, answers[..n]) + StepSights(StepsEnd(v, steps, answers[..n]), steps[n], answers[n])
  }

  // ----- what may become of a step

  /** A scope among them began and was not done. */
  ghost predicate Spoils(answers: seq<Answer>) {
    exists a :: a in answers && a.Scoped? && a.begun && !a.done
  }

  /** How many failed scopes the database did not take back. */
  ghost function Stuck(a: Answer): nat {
    if a.Scoped? && a.begun then StuckIn(a.inner) + (if a.done || a.undone then 0 else 1) else 0
  }

  ghost function StuckIn(answers: seq<Answer>): nat {
    if answers == [] then 0 else StuckIn(answers[..|answers| - 1]) + Stuck(answers[|answers| - 1])
  }

  /** `spoiled` says that a scope has failed before, in the outermost scope that is open. */
  ghost predicate StepPossible(v: World, s: Step, a: Answer, ok: bool, spoiled: bool)
    decreases s, 0
  {
    match s
    case FlushNow(caught) =>
      && a.Flushes? && Tried(v, a.log, a.lost) && (a.done ==> |a.log| == |v.memory.order| && a.lost == Skips)
      && ok == (a.done || caught)
    case Nested(body, caught) => ScopePossible(v, body, a, spoiled) && ok == (a.done || caught)
    case Raise => a == Plain && !ok
    case _ => a == Plain && ok
  }

  /** Every step that was answered went on to the next. */
  ghost predicate WentOn(v: World, steps: seq<Step>, answers: seq<Answer>, spoiled: bool)
    decreases steps, |answers|
  {
    |answers| <= |steps| &&
      (answers == [] ||
        var n := |answers| - 1;
        && WentOn(v, steps, answers[..n], spoiled)
        && StepPossible(StepsEnd(v, steps, answers[..n]), steps[n], answers[n], true, spoiled || Spoils(answers[..n])))
  }

  /** All steps went on, or the last one that was answered did not. */
  ghost predicate StepsPossible(v: World, steps: seq<Step>, answers: seq<Answer>, ok: bool, spoiled: bool)
    decreases steps, |answers| + 1
  {
    if ok then |answers| == |steps| && WentOn(v, steps, answers, spoiled)
    else
      0 < |answers| <= |steps| &&
        var n := |answers| - 1;
        && WentOn(v, steps, answers[..n], spoiled)
        && StepPossible(StepsEnd(v, steps, answers[..n]), steps[n], answers[n], false, spoiled || Spoils(answers[..n]))
  }

  /** A scope is done only if its callback came through, no scope in it or before it failed, and everything that is
      tracked was written. */
  ghost predicate ScopePossible(v: World, body: seq<Step>, a: Answer, spoiled: bool)
    decreases body, if a.Scoped? then |a.inner| + 2 else 0
  {
    a.Scoped? &&
      if !a.begun then !a.done && !a.undone
      else
        var u := StepsEnd(v, body, a.inner);
        && StepsPossible(v, body, a.inner, a.through, spoiled)
        && Tried(u, a.log, a.lost)
        && (!a.through || spoiled || Spoils(a.inner) ==> !a.done && a.log == [] && a.lost == Skips)
        && (a.done ==> !a.undone && |a.log| == |u.memory.order| && a.lost == Skips)
  }

  /** The steps raise an error of their own, or open a scope that cannot begin. */
  predicate MayRaise(steps: seq<Step>, savepoints: bool) {
    exists s :: s in steps && (s.Raise? || (s.Nested? && (!savepoints || MayRaise(s.body, savepoints))))
  }

  // ----- what follows from that

  /** A scope that is done has written all that was tracked when its callback had come through. */
  lemma DoneIsWritten(v: World, body: seq<Step>, a: Answer, spoiled: bool)
    requires ScopePossible(v, body, a, spoiled) && a.done
    ensures a.through && !spoiled && !Spoils(a.inner) && |a.inner| == |body|
    ensures var u, end := StepsEnd(v, body, a.inner), ScopeEnd(v, body, a);
            && Flushed(u.memory, u.rows, a.log, end.memory, end.rows)
            && end == AfterWrites(u, u.memory.order, a.log)
            && forall k | k in end.memory.tracked :: Unchanged(end.memory, k)
  {
    hide StepsEnd, Flushed, AfterFlush, Tried, WentOn, Spoils, StepPossible, Unchanged;
    var u, end := StepsEnd(v, body, a.inner), ScopeEnd(v, body, a);
    CompleteIsFlushed(u, a.log);
    FlushedIsUnchanged(u.memory, u.rows, a.log, end.memory, end.rows);
  }

  /** An entity without a key that a callback persists, and nothing more, has a row once the scope is done. */
  lemma PersistedIsWritten(v: World, k: Ref, table: string, primaryKey: string, generated: bool, a: Answer,
                           spoiled: bool)
    requires a.Scoped? && a.done && ScopePossible(v, [Persist(k, table, primaryKey, generated)], a, spoiled)
    requires WellFormed(v.memory) && k !in v.memory.tracked && k in v.memory.objects
    requires primaryKey in v.memory.objects[k].columns
    requires !HasIdentity(Tracked(New, table, primaryKey, generated, map[]), v.memory.objects[k])
    ensures var end := ScopeEnd(v, [Persist(k, table, primaryKey, generated)], a);
            && WellFormed(end.memory) && k in end.memory.tracked && end.memory.tracked[k].status == Managed
            && Id(end.memory, k) in end.rows && end.rows[Id(end.memory, k)] == end.memory.objects[k].columns
  {
    hide Flushed, AfterFlush, Tried, Spoils, HasIdentity, Applied, AfterWrites, ScopePossible;
    var s := Persist(k, table, primaryKey, generated);
    DoneIsWritten(v, [s], a, spoiled);
    var u := StepsEnd(v, [s], a.inner);
    assert a.inner[..0] == [] && u == PersistEnd(v, k, table, primaryKey, generated) by {
      assert StepsEnd(v, [s], a.inner[..0]) == v;
    }
    var end := ScopeEnd(v, [s], a);
    LastIsWritten(u.memory, u.rows, a.log, end.memory, end.rows, k);
  }

  lemma LastIsWritten(m0: Memory, rows0: Rows, log: seq<RowWrite>, m: Memory, rows: Rows, k: Ref)
    requires Flushed(m0, rows0, log, m, rows) && m0.order != [] && m0.order[|m0.order| - 1] == k
    requires m0.tracked[k].status == New
    ensures WellFormed(m) && k in m.tracked && m.tracked[k].status == Managed
    ensures Id(m, k) in rows && rows[Id(m, k)] == m.objects[k].columns
  {
    hide Free;
    var n := |log| - 1;
    assert Fits(m0, k, log[n]) && Done(m0, m, k, log[n]);
    assert Applied(rows0, log) == Apply(Applied(rows0, log[..n]), log[n]);
  }
}
