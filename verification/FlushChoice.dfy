/** What the database may choose in a flush: that the condition which can be seen before it is needed. */
module FlushChoices {
  import opened Values
  import opened Checkpoints
  import opened Database
  import opened Flushing
  import opened WriteBacks

  /** Whatever keys the database generates, the flush is a correct write-back if it succeeds. */
  ghost predicate AlwaysWritesBack(m0: Memory, rows0: Rows) {
    forall log, m, rows | Flushed(m0, rows0, log, m, rows) :: WroteBack(m0, rows0, m, rows)
  }

  /** A new entity that brings its key along. */
  ghost predicate BringsKey(m: Memory, k: Ref)
    requires WellFormed(m) && k in m.tracked
  {
    m.tracked[k].status == New && !(m.tracked[k].generated && IsEmptyGenerated(Id(m, k).key))
  }

  /** The keys that new entities bring along are of rows that are not there, and that no other such entity and
      no removed one goes by. */
  ghost predicate OwnKeysAreFree(m: Memory, rows: Rows)
    requires WellFormed(m)
  {
    && (forall k | k in m.tracked && BringsKey(m, k) :: Id(m, k) !in rows)
    && (forall k, j | k in m.tracked && BringsKey(m, k) && j in m.tracked && j != k
                      && (BringsKey(m, j) || m.tracked[j].status == Removed) :: Id(m, k) != Id(m, j))
  }

  // ----- keys that nothing goes by

  ghost predicate KeyBelow(id: RowId, n: int) { id.key.Int? ==> id.key.i <= n }

  /** No row, and no entity, has a number above `n` for its key. */
  ghost predicate Above(m: Memory, rows: Rows, n: nat)
    requires WellFormed(m)
  {
    (forall id | id in rows :: KeyBelow(id, n)) && forall k | k in m.tracked :: KeyBelow(Id(m, k), n)
  }

  lemma {:induction false} SomeBound(ids: set<RowId>) returns (n: nat)
    ensures forall id | id in ids :: KeyBelow(id, n)
  {
    n := 0;
    if ids != {} {
      var id :| id in ids;
      n := SomeBound(ids - {id});
      if id.key.Int? && id.key.i > n { n := id.key.i; }
      assert forall j | j in ids :: j == id || j in ids - {id};
    }
  }

  lemma SomeAbove(m: Memory, rows: Rows) returns (n: nat)
    requires WellFormed(m)
    ensures Above(m, rows, n)
  {
    var ids := rows.Keys + set k | k in m.tracked :: Id(m, k);
    n := SomeBound(ids);
    forall k | k in m.tracked
      ensures KeyBelow(Id(m, k), n)
    {
      assert Id(m, k) in ids;
    }
  }

  // ----- a flush with keys of one's choice

  /** The row for the insert at position `i`: the entity's own, `x` at `at`, else a new one above `n`. */
  ghost function Given(m: Memory, n: nat, at: int, x: RowId, i: nat): RowId
    requires WellFormed(m) && i < |m.order|
  {
    var k := m.order[i];
    if BringsKey(m, k) then Id(m, k) else if i == at then x else RowId(m.tracked[k].table, Int(n + 1 + i))
  }

  ghost function Statement(m: Memory, n: nat, at: int, x: RowId, i: nat): RowWrite
    requires WellFormed(m) && i < |m.order|
  {
    var k := m.order[i];
    match m.tracked[k].status
    case New =>
      var id := Given(m, n, at, x, i);
      Inserts(id, m.objects[k].columns[m.tracked[k].primaryKey := id.key])
    case Managed => UpdateOf(m, k)
    case Removed => Deletes(Id(m, k))
    case Detached => Skips
  }

  ghost function Chosen(m: Memory, n: nat, at: int, x: RowId): (log: seq<RowWrite>)
    requires WellFormed(m)
    ensures |log| == |m.order| && forall i | 0 <= i < |log| :: log[i] == Statement(m, n, at, x, i)
  {
    seq(|m.order|, i requires 0 <= i < |m.order| => Statement(m, n, at, x, i))
  }

  /** `x`, by which a removed entity goes, may be given at `at`, if that is a position: it is not there, or is
      deleted before. */
  ghost predicate MayForce(m: Memory, rows: Rows, at: int, x: RowId)
    requires WellFormed(m) && at < |m.order|
  {
    0 <= at ==>
      && IsAt(m, at, New) && !BringsKey(m, m.order[at]) && MayBeGiven(m, m.order[at], x)
      && (exists q :: 0 <= q < |m.order| && IsAt(m, q, Removed) && Id(m, m.order[q]) == x)
      && (x in rows ==> exists i :: 0 <= i < at && IsAt(m, i, Removed) && Id(m, m.order[i]) == x)
  }

  lemma ChosenFits(m: Memory, n: nat, at: int, x: RowId, i: nat)
    requires WellFormed(m) && i < |m.order|
    requires i == at && IsAt(m, i, New) && !BringsKey(m, m.order[i]) ==> MayBeGiven(m, m.order[i], x)
    ensures Fits(m, m.order[i], Chosen(m, n, at, x)[i])
  {}

  /** The rows given are all different, and those not given by force are of no row and no removed entity. */
  lemma GivenIsNew(m: Memory, rows: Rows, n: nat, at: int, x: RowId, i: nat)
    requires WellFormed(m) && OwnKeysAreFree(m, rows) && Above(m, rows, n) && i < |m.order| && IsAt(m, i, New)
    requires i != at || BringsKey(m, m.order[i])
    ensures Given(m, n, at, x, i) !in rows
    ensures forall j | 0 <= j < |m.order| && IsAt(m, j, Removed) :: Id(m, m.order[j]) != Given(m, n, at, x, i)
    ensures forall j | 0 <= j < |m.order| && IsAt(m, j, New) && j != i && (j != at || BringsKey(m, m.order[j])) ::
              Given(m, n, at, x, j) != Given(m, n, at, x, i)
  {}

  lemma {:induction false} OnlyGiven(rows: Rows, log: seq<RowWrite>, id: RowId)
    requires id in Applied(rows, log) && id !in rows
    ensures exists j :: 0 <= j < |log| && log[j].Inserts? && log[j].id == id
  {
    var n := |log| - 1;
    if !(log[n].Inserts? && log[n].id == id) {
      OnlyGiven(rows, log[..n], id);
      var j :| 0 <= j < n && log[..n][j].Inserts? && log[..n][j].id == id;
      assert log[j] == log[..n][j];
    }
  }

  lemma ChosenAt(m: Memory, n: nat, at: int, x: RowId, i: nat)
    requires WellFormed(m) && i < |m.order|
    ensures var w := Chosen(m, n, at, x)[i];
            && (w.Inserts? <==> IsAt(m, i, New)) && (w.Inserts? ==> w.id == Given(m, n, at, x, i))
            && (IsAt(m, i, Removed) ==> w == Deletes(Id(m, m.order[i])))
  {}

  /** No row is given twice. */
  lemma GivenApart(m: Memory, rows: Rows, n: nat, at: int, x: RowId, i: nat, j: nat)
    requires WellFormed(m) && OwnKeysAreFree(m, rows) && Above(m, rows, n) && at < |m.order| && MayForce(m, rows, at, x)
    requires i < |m.order| && j < |m.order| && i != j && IsAt(m, i, New) && IsAt(m, j, New)
    ensures Given(m, n, at, x, i) != Given(m, n, at, x, j)
  {
    hide Given, OwnKeysAreFree, Above;
    if i != at || BringsKey(m, m.order[i]) { GivenIsNew(m, rows, n, at, x, i); }
    if j != at || BringsKey(m, m.order[j]) { GivenIsNew(m, rows, n, at, x, j); }
    if i == at && !BringsKey(m, m.order[i]) { ForcedIs(m, n, at, x); }
    if j == at && !BringsKey(m, m.order[j]) { ForcedIs(m, n, at, x); }
  }

  lemma ForcedIs(m: Memory, n: nat, at: int, x: RowId)
    requires WellFormed(m) && 0 <= at < |m.order| && !BringsKey(m, m.order[at])
    ensures Given(m, n, at, x, at) == x
  {}

  lemma ChosenIsFree(m: Memory, rows: Rows, n: nat, at: int, x: RowId)
    requires WellFormed(m) && OwnKeysAreFree(m, rows) && Above(m, rows, n) && at < |m.order| && MayForce(m, rows, at, x)
    ensures Free(rows, Chosen(m, n, at, x))
  {
    hide Given, OwnKeysAreFree, Above, Statement, Chosen, MayForce, Applied;
    var log := Chosen(m, n, at, x);
    forall i | 0 <= i < |log| && log[i].Inserts?
      ensures log[i].id !in Applied(rows, log[..i])
    {
      ChosenAt(m, n, at, x, i);
      ChosenIsFreeAt(m, rows, n, at, x, i);
    }
  }

  lemma ChosenIsFreeAt(m: Memory, rows: Rows, n: nat, at: int, x: RowId, i: nat)
    requires WellFormed(m) && OwnKeysAreFree(m, rows) && Above(m, rows, n) && at < |m.order| && MayForce(m, rows, at, x)
    requires i < |m.order| && IsAt(m, i, New)
    ensures Chosen(m, n, at, x)[i].Inserts?
    ensures Chosen(m, n, at, x)[i].id !in Applied(rows, Chosen(m, n, at, x)[..i])
  {
    hide Given, OwnKeysAreFree, Above, Statement, Chosen, Applied;
    var log := Chosen(m, n, at, x);
    var id := Given(m, n, at, x, i);
    ChosenAt(m, n, at, x, i);
    forall j | 0 <= j < i && log[j].Inserts?
      ensures log[j].id != id
    {
      ChosenAt(m, n, at, x, j);
      GivenApart(m, rows, n, at, x, i, j);
    }
    if id in Applied(rows, log[..i]) {
      if id !in rows {
        OnlyGiven(rows, log[..i], id);
      } else if i != at || BringsKey(m, m.order[i]) {
        GivenIsNew(m, rows, n, at, x, i);
      } else {
        ForcedIs(m, n, at, x);
        var j :| 0 <= j < at && IsAt(m, j, Removed) && Id(m, m.order[j]) == x;
        ChosenAt(m, n, at, x, j);
        GoneUntilGiven(rows, log[..i], j, x);
      }
    }
  }

  /** Statements that fit, with inserts to rows that are not there, are those of a flush. */
  lemma FlushOf(m0: Memory, rows0: Rows, log: seq<RowWrite>) returns (m: Memory)
    requires AllFit(m0, log) && Free(rows0, log)
    ensures Flushed(m0, rows0, log, m, Applied(rows0, log))
  {
    hide Progress, Free, Applied, AfterWrites;
    var v := World(m0, map[], rows0);
    FitsAreTried(v, log);
    var u := AfterWrites(v, m0.order, log);
    ProgressUnpacked(m0, rows0, log, u.memory, u.rows);
    m := u.memory;
  }

  // ----- the condition is needed

  /** `q` is the position of a removed entity whose row nothing can give back. */
  lemma NotGivenAfter(m: Memory, rows: Rows, n: nat, at: int, q: nat)
    requires WellFormed(m) && OwnKeysAreFree(m, rows) && Above(m, rows, n) && at <= q < |m.order| && IsAt(m, q, Removed)
    ensures !GivenAfter(Chosen(m, n, at, Id(m, m.order[q])), q, Id(m, m.order[q]))
  {
    hide Given, OwnKeysAreFree, Above, Statement, Chosen;
    var x := Id(m, m.order[q]);
    var log := Chosen(m, n, at, x);
    forall r | q < r < |log| && log[r].Inserts?
      ensures log[r].id != x
    {
      ChosenAt(m, n, at, x, r);
      GivenIsNew(m, rows, n, at, x, r);
    }
  }

  /** A log that the choice of keys allows. */
  lemma ChosenIsFeasible(m: Memory, rows: Rows, n: nat, at: int, x: RowId)
    requires WellFormed(m) && OwnKeysAreFree(m, rows) && Above(m, rows, n) && at < |m.order| && MayForce(m, rows, at, x)
    ensures AllFit(m, Chosen(m, n, at, x)) && Free(rows, Chosen(m, n, at, x))
  {
    hide Given, OwnKeysAreFree, Above, Statement, Fits, Free;
    var log := Chosen(m, n, at, x);
    forall i | 0 <= i < |log|
      ensures Fits(m, m.order[i], log[i])
    {
      ChosenFits(m, n, at, x, i);
    }
    ChosenIsFree(m, rows, n, at, x);
  }

  lemma ManagedStands(m: Memory, log: seq<RowWrite>, p: nat)
    requires AllFit(m, log) && p < |log| && IsAt(m, p, Managed)
    ensures Survives(m, m.order[p]) && Stand(m, log, p) == Id(m, m.order[p])
    ensures Own(m, log, p) == m.objects[m.order[p]].columns
  {
    FitsAt(m, log, p);
  }

  /** A managed entity and a removed one go by one row. */
  ghost predicate Shares(m: Memory, p: int, q: int)
    requires WellFormed(m)
  {
    && 0 <= p < |m.order| && 0 <= q < |m.order| && Id(m, m.order[p]) == Id(m, m.order[q])
    && IsAt(m, p, Managed) && IsAt(m, q, Removed)
  }

  /** Two managed entities of one row have different values. */
  ghost predicate Disagree(m: Memory, p: int, q: int)
    requires WellFormed(m)
  {
    && 0 <= p < |m.order| && 0 <= q < |m.order| && Id(m, m.order[p]) == Id(m, m.order[q])
    && IsAt(m, p, Managed) && IsAt(m, q, Managed) && m.objects[m.order[p]].columns != m.objects[m.order[q]].columns
  }

  /** An insert may be given the row that a later delete takes. */
  ghost predicate MayCross(m: Memory, rows: Rows, p: int, q: int)
    requires WellFormed(m)
  {
    && 0 <= p < q < |m.order| && IsAt(m, p, New) && IsAt(m, q, Removed)
    && MayBeGiven(m, m.order[p], Id(m, m.order[q]))
    && (Id(m, m.order[q]) in rows ==>
          exists i :: 0 <= i < p && IsAt(m, i, Removed) && Id(m, m.order[i]) == Id(m, m.order[q]))
  }

  lemma NoneIsApart(m: Memory, rows: Rows)
    requires WellFormed(m) && forall p, q :: !Shares(m, p, q) && !Disagree(m, p, q) && !MayCross(m, rows, p, q)
    ensures Apart(m, rows)
  {
    hide MayBeGiven, Id, KeyFits;
    forall p, q | 0 <= p < |m.order| && 0 <= q < |m.order|
                  && IsAt(m, p, Managed) && Id(m, m.order[p]) == Id(m, m.order[q])
      ensures !IsAt(m, q, Removed)
      ensures IsAt(m, q, Managed) ==> m.objects[m.order[p]].columns == m.objects[m.order[q]].columns
    {
      assert !Shares(m, p, q) && !Disagree(m, p, q);
    }
    forall p, q | 0 <= p < q < |m.order| && IsAt(m, p, New) && IsAt(m, q, Removed)
                  && MayBeGiven(m, m.order[p], Id(m, m.order[q]))
      ensures Id(m, m.order[q]) in rows
      ensures forall i | 0 <= i < p && IsAt(m, i, Removed) :: Id(m, m.order[i]) != Id(m, m.order[q])
    {
      assert !MayCross(m, rows, p, q);
    }
  }

  lemma NotApart(m: Memory, rows: Rows)
    requires WellFormed(m) && !Apart(m, rows)
    ensures (exists p, q :: Shares(m, p, q)) || (exists p, q :: Disagree(m, p, q))
            || (exists p, q :: MayCross(m, rows, p, q))
  {
    hide *;
    if (forall p, q :: !Shares(m, p, q)) && (forall p, q :: !Disagree(m, p, q)) {
      if forall p, q :: !MayCross(m, rows, p, q) {
        NoneIsApart(m, rows);
      }
    }
  }

  /** Statements under which the flush is no write-back. */
  lemma Unfit(m: Memory, rows: Rows, n: nat) returns (log: seq<RowWrite>)
    requires WellFormed(m) && OwnKeysAreFree(m, rows) && !Apart(m, rows) && Above(m, rows, n)
    ensures AllFit(m, log) && Free(rows, log) && !(AgreeOnRows(m, log) && GivenBack(m, log))
  {
    hide *;
    NotApart(m, rows);
    if p, q :| Shares(m, p, q) {
      log := UnfitShared(m, rows, n, p, q);
    } else if p, q :| Disagree(m, p, q) {
      log := UnfitDisagreeing(m, rows, n, p, q);
    } else {
      var p, q :| MayCross(m, rows, p, q);
      log := UnfitCrossing(m, rows, n, p, q);
    }
  }

  lemma UnfitShared(m: Memory, rows: Rows, n: nat, p: int, q: int) returns (log: seq<RowWrite>)
    requires WellFormed(m) && OwnKeysAreFree(m, rows) && Above(m, rows, n) && Shares(m, p, q)
    ensures AllFit(m, log) && Free(rows, log) && !GivenBack(m, log)
  {
    hide OwnKeysAreFree, Above, Statement, Fits, Free, Chosen, GivenAfter, Stand, Id, Survives;
    log := Chosen(m, n, -1, Id(m, m.order[q]));
    ChosenIsFeasible(m, rows, n, -1, Id(m, m.order[q]));
    ManagedStands(m, log, p);
    NotGivenAfter(m, rows, n, -1, q);
  }

  lemma UnfitDisagreeing(m: Memory, rows: Rows, n: nat, p: int, q: int) returns (log: seq<RowWrite>)
    requires WellFormed(m) && OwnKeysAreFree(m, rows) && Above(m, rows, n) && Disagree(m, p, q)
    ensures AllFit(m, log) && Free(rows, log) && !AgreeOnRows(m, log)
  {
    hide OwnKeysAreFree, Above, Statement, Fits, Free, Chosen, Stand, Own, Id, Survives;
    log := Chosen(m, n, -1, Id(m, m.order[q]));
    ChosenIsFeasible(m, rows, n, -1, Id(m, m.order[q]));
    ManagedStands(m, log, p);
    ManagedStands(m, log, q);
  }

  lemma UnfitCrossing(m: Memory, rows: Rows, n: nat, p: int, q: int) returns (log: seq<RowWrite>)
    requires WellFormed(m) && OwnKeysAreFree(m, rows) && Above(m, rows, n) && MayCross(m, rows, p, q)
    ensures AllFit(m, log) && Free(rows, log) && !GivenBack(m, log)
  {
    hide OwnKeysAreFree, Above, Statement, Fits, Free, Chosen, MayBeGiven, GivenAfter, Stand, Id, Survives;
    log := Chosen(m, n, p, Id(m, m.order[q]));
    GivenIsNotOwn(m, rows, p, q);
    ChosenIsFeasible(m, rows, n, p, Id(m, m.order[q]));
    ForcedStands(m, n, p, Id(m, m.order[q]));
    NotGivenAfter(m, rows, n, p, q);
  }

  lemma GivenIsNotOwn(m: Memory, rows: Rows, p: nat, q: nat)
    requires WellFormed(m) && OwnKeysAreFree(m, rows)
    requires p < |m.order| && q < |m.order| && IsAt(m, p, New) && IsAt(m, q, Removed)
    requires MayBeGiven(m, m.order[p], Id(m, m.order[q]))
    ensures !BringsKey(m, m.order[p])
  {}

  lemma ForcedStands(m: Memory, n: nat, p: nat, x: RowId)
    requires WellFormed(m) && p < |m.order| && IsAt(m, p, New) && !BringsKey(m, m.order[p])
    ensures Survives(m, m.order[p]) && Stand(m, Chosen(m, n, p, x), p) == x
  {
    ForcedIs(m, n, p, x);
    ChosenAt(m, n, p, x, p);
  }

  /** If it does not hold, some keys that the database may generate make the flush one that is no write-back. */
  lemma ApartIsNeeded(m0: Memory, rows0: Rows) returns (log: seq<RowWrite>, m: Memory, rows: Rows)
    requires Remembered(m0, rows0) && OwnKeysAreFree(m0, rows0) && !Apart(m0, rows0)
    ensures Flushed(m0, rows0, log, m, rows) && !WroteBack(m0, rows0, m, rows)
  {
    hide Flushed, WroteBack, OwnKeysAreFree, AgreeOnRows, GivenBack, Apart;
    var n := SomeAbove(m0, rows0);
    log := Unfit(m0, rows0, n);
    rows := Applied(rows0, log);
    m := FlushOf(m0, rows0, log);
    FlushWritesBack(m0, rows0, log, m, rows);
  }

  /** What can be seen before a flush is exactly what makes it a write-back whatever keys are generated. */
  lemma ApartIsExact(m0: Memory, rows0: Rows)
    requires Remembered(m0, rows0) && OwnKeysAreFree(m0, rows0)
    ensures Apart(m0, rows0) <==> AlwaysWritesBack(m0, rows0)
  {
    hide Flushed, WroteBack, OwnKeysAreFree, Apart;
    if Apart(m0, rows0) {
      forall log, m, rows | Flushed(m0, rows0, log, m, rows)
        ensures WroteBack(m0, rows0, m, rows)
      {
        ApartWritesBack(m0, rows0, log, m, rows);
      }
    } else {
      var log, m, rows := ApartIsNeeded(m0, rows0);
    }
  }

  /** A key brought along may give a removed row back: then the flush is a write-back though the condition
      fails. Here `c` is inserted anew as the row that `a` stands for and `b` takes away. */
  lemma OwnKeyGivesBack(m0: Memory, rows0: Rows, a: Ref, b: Ref, c: Ref)
    requires Remembered(m0, rows0) && m0.order == [a, b, c]
    requires IsAt(m0, 0, Managed) && IsAt(m0, 1, Removed) && IsAt(m0, 2, New) && BringsKey(m0, c)
    requires Id(m0, a) == Id(m0, b) == Id(m0, c) && m0.objects[a].columns == m0.objects[c].columns
    ensures !Apart(m0, rows0) && !OwnKeysAreFree(m0, rows0) && AlwaysWritesBack(m0, rows0)
  {
    hide Flushed, WroteBack;
    assert m0.order[0] == a && m0.order[1] == b && m0.order[2] == c;
    forall log, m, rows | Flushed(m0, rows0, log, m, rows)
      ensures WroteBack(m0, rows0, m, rows)
    {
      FlushShape(m0, rows0, log, m, rows);
      FlushWritesBack(m0, rows0, log, m, rows);
      GivenBackByOwn(m0, log, a, b, c);
    }
  }

  lemma GivenBackByOwn(m0: Memory, log: seq<RowWrite>, a: Ref, b: Ref, c: Ref)
    requires AllFit(m0, log) && m0.order == [a, b, c]
    requires IsAt(m0, 0, Managed) && IsAt(m0, 1, Removed) && IsAt(m0, 2, New) && BringsKey(m0, c)
    requires Id(m0, a) == Id(m0, b) == Id(m0, c) && m0.objects[a].columns == m0.objects[c].columns
    ensures AgreeOnRows(m0, log) && GivenBack(m0, log)
  {
    assert m0.order[0] == a && m0.order[1] == b && m0.order[2] == c;
    FitsAt(m0, log, 0);
    FitsAt(m0, log, 1);
    FitsAt(m0, log, 2);
    assert Fits(m0, c, log[2]);
    assert log[2].id == Id(m0, c) && log[2].columns == m0.objects[c].columns;
  }
}
