/** When a flush is a correct write-back. */
module WriteBacks {
  import opened Values
  import opened Checkpoints
  import opened Database
  import opened Flushing

  // ----- what is taken for granted, and what is promised

  /** A managed entity remembers its row as it is, and has kept its key. */
  ghost predicate Remembers(m: Memory, rows: Rows, k: Ref)
    requires WellFormed(m) && k in m.tracked
  {
    && Id(m, k) in rows && rows[Id(m, k)] == m.tracked[k].original
    && m.tracked[k].original.Keys == m.objects[k].columns.Keys
    && m.tracked[k].original[m.tracked[k].primaryKey] == m.objects[k].columns[m.tracked[k].primaryKey]
  }

  ghost predicate Remembered(m: Memory, rows: Rows) {
    WellFormed(m) && forall k | k in m.tracked && m.tracked[k].status == Managed :: Remembers(m, rows, k)
  }

  /** Row, remembered and current values are the same. */
  ghost predicate InStep(m: Memory, rows: Rows, k: Ref)
    requires WellFormed(m)
  {
    && k in m.tracked && m.tracked[k].status == Managed
    && Id(m, k) in rows && rows[Id(m, k)] == m.tracked[k].original == m.objects[k].columns
  }

  /** The row has been given to an entity that is tracked. */
  ghost predicate Held(m: Memory, id: RowId)
    requires WellFormed(m)
  {
    exists k :: k in m.tracked && m.tracked[k].status == Managed && Id(m, k) == id
  }

  /** At most the generated key is new. */
  ghost predicate SameButKey(t: Tracked, was: Entity, now: Entity) {
    && now.runtime == was.runtime
    && t.primaryKey in was.columns && t.primaryKey in now.columns
    && now.columns == was.columns[t.primaryKey := now.columns[t.primaryKey]]
    && (now.columns[t.primaryKey] != was.columns[t.primaryKey] ==>
          t.status == New && t.generated && IsEmptyGenerated(was.columns[t.primaryKey]))
  }

  /** No entity that has a row, or had one, goes by this one. */
  ghost predicate Foreign(m: Memory, id: RowId)
    requires WellFormed(m)
  {
    forall k | k in m.tracked && (m.tracked[k].status == Managed || m.tracked[k].status == Removed) :: Id(m, k) != id
  }

  /** Rows that stand for no entity, before or after, are as they were. */
  ghost predicate SameOutside(m0: Memory, rows0: Rows, m: Memory, rows: Rows)
    requires WellFormed(m0) && WellFormed(m)
  {
    forall id | Foreign(m0, id) && Foreign(m, id) ::
      (id in rows <==> id in rows0) && (id in rows ==> rows[id] == rows0[id])
  }

  /** Entities change by at most a generated key, and nothing new is tracked. */
  ghost predicate Confined(m0: Memory, m: Memory) {
    && m.tracked.Keys <= m0.tracked.Keys && m.objects.Keys == m0.objects.Keys
    && (forall k | k in m0.objects ::
          if k in m0.tracked then SameButKey(m0.tracked[k], m0.objects[k], m.objects[k])
          else m.objects[k] == m0.objects[k])
  }

  /** What became of `k`. */
  ghost predicate CameOut(m0: Memory, m: Memory, rows: Rows, k: Ref)
    requires WellFormed(m0) && WellFormed(m) && k in m0.tracked
  {
    match m0.tracked[k].status
    case Removed => k !in m.tracked && (Id(m0, k) in rows ==> Held(m, Id(m0, k)))
    case Detached => k in m.tracked && m.tracked[k].status == Detached
    case _ => InStep(m, rows, k)
  }

  /** Every surviving entity is managed with row, remembered and current values alike; removed entities
      have neither a row, unless it was given to another one, nor a place among the tracked; nothing
      else has changed. */
  ghost predicate WroteBack(m0: Memory, rows0: Rows, m: Memory, rows: Rows) {
    && WellFormed(m0) && WellFormed(m) && Confined(m0, m) && SameOutside(m0, rows0, m, rows)
    && forall k | k in m0.tracked :: CameOut(m0, m, rows, k)
  }

  /** After a write-back the next flush may take for granted what this one could, and finds nothing to write. */
  lemma FlushedIsClean(m0: Memory, rows0: Rows, m: Memory, rows: Rows)
    requires WroteBack(m0, rows0, m, rows)
    ensures Remembered(m, rows) && forall k | k in m.tracked :: Settled(m, k)
  {
    forall k | k in m.tracked
      ensures Settled(m, k) && (m.tracked[k].status == Managed ==> Remembers(m, rows, k))
    {
      assert CameOut(m0, m, rows, k);
    }
  }

  // ----- the condition

  ghost predicate Survives(m0: Memory, k: Ref) {
    k in m0.tracked && (m0.tracked[k].status == New || m0.tracked[k].status == Managed)
  }

  /** The row of the entity at position `p`: its own, or the one that it was given. */
  ghost function Stand(m0: Memory, log: seq<RowWrite>, p: nat): RowId
    requires WellFormed(m0) && p < |log| == |m0.order|
  {
    if log[p].Inserts? then log[p].id else Id(m0, m0.order[p])
  }

  /** Its values, a generated key included. */
  ghost function Own(m0: Memory, log: seq<RowWrite>, p: nat): Columns
    requires WellFormed(m0) && p < |log| == |m0.order|
  {
    if log[p].Inserts? then log[p].columns else m0.objects[m0.order[p]].columns
  }

  /** Surviving entities that stand for one row have the same values. */
  ghost predicate AgreeOnRows(m0: Memory, log: seq<RowWrite>)
    requires WellFormed(m0) && |log| == |m0.order|
  {
    forall p, q | 0 <= p < |log| && 0 <= q < |log| && Survives(m0, m0.order[p]) && Survives(m0, m0.order[q])
      && Stand(m0, log, p) == Stand(m0, log, q) :: Own(m0, log, p) == Own(m0, log, q)
  }

  ghost predicate GivenAfter(log: seq<RowWrite>, q: nat, id: RowId) {
    exists r :: q < r < |log| && log[r].Inserts? && log[r].id == id
  }

  /** A row that a removed entity shares with a surviving one is inserted again after its removal. */
  ghost predicate GivenBack(m0: Memory, log: seq<RowWrite>)
    requires WellFormed(m0) && |log| == |m0.order|
  {
    forall p, q | 0 <= p < |log| && 0 <= q < |log| && Survives(m0, m0.order[p])
      && m0.tracked[m0.order[q]].status == Removed && Stand(m0, log, p) == Id(m0, m0.order[q]) ::
      GivenAfter(log, q, Stand(m0, log, p))
  }

  // ----- what a list of statements makes of one row

  predicate Touches(w: RowWrite, id: RowId) { !w.Skips? && w.id == id }

  lemma {:induction false} Untouched(rows: Rows, log: seq<RowWrite>, id: RowId)
    requires forall i | 0 <= i < |log| :: !Touches(log[i], id)
    ensures id in Applied(rows, log) <==> id in rows
    ensures id in rows ==> Applied(rows, log)[id] == rows[id]
  {
    if log != [] {
      var init := log[..|log| - 1];
      assert !Touches(log[|log| - 1], id);
      Untouched(rows, init, id);
    }
  }

  lemma LongerGives(log: seq<RowWrite>, q: nat, id: RowId)
    requires log != []
    ensures GivenAfter(log[..|log| - 1], q, id) ==> GivenAfter(log, q, id)
  {}

  lemma EarlierGives(log: seq<RowWrite>, r: nat, i: nat, id: RowId)
    requires r <= i
    ensures GivenAfter(log, i, id) ==> GivenAfter(log, r, id)
  {}

  /** A row that was deleted is gone until it is inserted again. */
  lemma {:induction false} GoneUntilGiven(rows: Rows, log: seq<RowWrite>, q: nat, id: RowId)
    requires q < |log| && log[q] == Deletes(id) && !GivenAfter(log, q, id)
    ensures id !in Applied(rows, log)
  {
    if q < |log| - 1 {
      var init, last := log[..|log| - 1], log[|log| - 1];
      LongerGives(log, q, id);
      GoneUntilGiven(rows, init, q, id);
      assert !(last.Inserts? && last.id == id);
    }
  }

  /** Writing parts of `c` over `c`. */
  ghost predicate Within(changes: Columns, c: Columns) {
    forall x | x in changes :: x in c && c[x] == changes[x]
  }

  lemma WithinAdds(c: Columns, changes: Columns)
    requires Within(changes, c)
    ensures c + changes == c
  {}

  /** A row stays what was inserted if nothing else is written to it. */
  lemma {:induction false} HeldSinceGiven(rows: Rows, log: seq<RowWrite>, p: nat, id: RowId, c: Columns)
    requires p < |log| && log[p] == Inserts(id, c)
    requires forall i | p < i < |log| && Touches(log[i], id) ::
               log[i] == Inserts(id, c) || (log[i].Updates? && Within(log[i].changes, c))
    ensures id in Applied(rows, log) && Applied(rows, log)[id] == c
  {
    var init, last := log[..|log| - 1], log[|log| - 1];
    if p < |log| - 1 {
      HeldSinceGiven(rows, init, p, id, c);
      assert Touches(last, id) ==> last == Inserts(id, c) || (last.Updates? && Within(last.changes, c));
      if Touches(last, id) && last.Updates? { WithinAdds(c, last.changes); }
    }
  }

  /** What takes the row from `r` to `c`. */
  ghost predicate Reaches(r: Columns, changes: Columns, c: Columns) {
    r + changes == c && Within(changes, c)
  }

  /** A row that is only updated, towards `c` each time, stays or becomes `c`. */
  lemma {:induction false} HeldFromStart(rows: Rows, log: seq<RowWrite>, id: RowId, c: Columns)
    requires Free(rows, log) && id in rows
    requires forall i | 0 <= i < |log| && Touches(log[i], id) ::
               log[i].Inserts? || (log[i].Updates? && Reaches(rows[id], log[i].changes, c))
    ensures id in Applied(rows, log) && (Applied(rows, log)[id] == rows[id] || Applied(rows, log)[id] == c)
    ensures (exists i :: 0 <= i < |log| && Touches(log[i], id)) ==> Applied(rows, log)[id] == c
    ensures forall i | 0 <= i < |log| && Touches(log[i], id) :: log[i].Updates?
  {
    if log != [] {
      var n := |log| - 1;
      var init, last := log[..n], log[n];
      assert Free(rows, init) by {
        forall i | 0 <= i < n && init[i].Inserts?
          ensures init[i].id !in Applied(rows, init[..i])
        {
          assert init[..i] == log[..i] && log[i].Inserts?;
        }
      }
      HeldFromStart(rows, init, id, c);
      assert last.Inserts? ==> last.id !in Applied(rows, init);
      if Touches(last, id) {
        assert Reaches(rows[id], last.changes, c);
        WithinAdds(c, last.changes);
      } else {
        assert forall i | 0 <= i < n :: init[i] == log[i];
      }
    }
  }

  lemma {:induction false} LastGiven(log: seq<RowWrite>, id: RowId) returns (r: nat)
    requires exists i :: 0 <= i < |log| && log[i].Inserts? && log[i].id == id
    ensures r < |log| && log[r].Inserts? && log[r].id == id && !GivenAfter(log, r, id)
  {
    var n := |log| - 1;
    if log[n].Inserts? && log[n].id == id {
      r := n;
    } else {
      var i :| 0 <= i < |log| && log[i].Inserts? && log[i].id == id;
      assert log[..n][i] == log[i];
      r := LastGiven(log[..n], id);
      forall j | r < j < |log| && log[j].Inserts?
        ensures log[j].id != id
      {
        if j < n { assert log[..n][j] == log[j]; }
      }
    }
  }

  // ----- what each statement is for its entity

  /** The statements that touch the row of a survivor. */
  lemma StatementFits(m0: Memory, rows0: Rows, log: seq<RowWrite>, i: nat, id: RowId)
    requires Remembered(m0, rows0) && |log| == |m0.order| && i < |log| && Fits(m0, m0.order[i], log[i])
    requires Touches(log[i], id)
    ensures Stand(m0, log, i) == id
    ensures Survives(m0, m0.order[i]) <==> !log[i].Deletes?
    ensures log[i].Inserts? ==> log[i] == Inserts(id, Own(m0, log, i))
    ensures log[i].Updates? ==> id in rows0 && Reaches(rows0[id], log[i].changes, Own(m0, log, i))
  {
    var k := m0.order[i];
    if log[i].Updates? {
      assert Remembers(m0, rows0, k);
      var t, columns := m0.tracked[k], m0.objects[k].columns;
      assert t.original + Changed(t, columns) == columns;
    }
  }

  lemma UnchangedIsRemembered(m0: Memory, rows0: Rows, log: seq<RowWrite>, p: nat)
    requires Remembered(m0, rows0) && |log| == |m0.order| && p < |log| && Fits(m0, m0.order[p], log[p])
    requires Survives(m0, m0.order[p]) && !Touches(log[p], Stand(m0, log, p))
    ensures Stand(m0, log, p) in rows0 && rows0[Stand(m0, log, p)] == Own(m0, log, p)
  {
    var k := m0.order[p];
    assert Remembers(m0, rows0, k);
    var t, columns := m0.tracked[k], m0.objects[k].columns;
    forall c | c in columns
      ensures t.original[c] == columns[c]
    {
      assert c !in Changed(t, columns);
    }
    assert t.original == columns;
  }

  ghost predicate AllFit(m0: Memory, log: seq<RowWrite>) {
    && WellFormed(m0) && |log| == |m0.order|
    && forall i | 0 <= i < |log| :: Fits(m0, m0.order[i], log[i])
  }

  /** Under the condition the row of a survivor ends up as the survivor is. */
  lemma SurvivorHasRow(m0: Memory, rows0: Rows, log: seq<RowWrite>, p: nat)
    requires Remembered(m0, rows0) && AllFit(m0, log) && Free(rows0, log)
    requires AgreeOnRows(m0, log) && GivenBack(m0, log)
    requires p < |log| && Survives(m0, m0.order[p])
    ensures var id := Stand(m0, log, p);
            id in Applied(rows0, log) && Applied(rows0, log)[id] == Own(m0, log, p)
  {
    hide Fits, Applied, Free, Own, Survives, Remembered, WellFormed;
    var id, c := Stand(m0, log, p), Own(m0, log, p);
    if r0 :| 0 <= r0 < |log| && log[r0].Inserts? && log[r0].id == id {
      var r := LastGiven(log, id);
      StatementFits(m0, rows0, log, r, id);
      forall i | r < i < |log| && Touches(log[i], id)
        ensures log[i] == Inserts(id, c) || (log[i].Updates? && Within(log[i].changes, c))
      {
        LaterAgrees(m0, rows0, log, p, r, i);
      }
      HeldSinceGiven(rows0, log, r, id, c);
    } else {
      forall i | 0 <= i < |log| && Touches(log[i], id)
        ensures log[i].Updates? && id in rows0 && Reaches(rows0[id], log[i].changes, c)
      {
        StatementFits(m0, rows0, log, i, id);
        if log[i].Deletes? { RemovedIs(m0, log, i, id); }
      }
      OwnRowWasThere(m0, rows0, log, p);
      HeldFromStart(rows0, log, id, c);
    }
  }

  lemma RemovedIs(m0: Memory, log: seq<RowWrite>, i: nat, id: RowId)
    requires AllFit(m0, log) && i < |log| && log[i] == Deletes(id)
    ensures m0.order[i] in m0.tracked && m0.tracked[m0.order[i]].status == Removed && Id(m0, m0.order[i]) == id
  {
    assert Fits(m0, m0.order[i], log[i]);
  }

  lemma LaterAgrees(m0: Memory, rows0: Rows, log: seq<RowWrite>, p: nat, r: nat, i: nat)
    requires Remembered(m0, rows0) && AllFit(m0, log) && AgreeOnRows(m0, log) && GivenBack(m0, log)
    requires p < |log| && Survives(m0, m0.order[p]) && r < i < |log|
    requires Touches(log[i], Stand(m0, log, p)) && !GivenAfter(log, r, Stand(m0, log, p))
    ensures log[i].Updates? && Within(log[i].changes, Own(m0, log, p))
  {
    hide Fits, Stand, Own, Remembered, WellFormed;
    var id := Stand(m0, log, p);
    StatementFits(m0, rows0, log, i, id);
    if log[i].Deletes? {
      EarlierGives(log, r, i, id);
      RemovedIs(m0, log, i, id);
    }
  }

  lemma OwnRowWasThere(m0: Memory, rows0: Rows, log: seq<RowWrite>, p: nat)
    requires Remembered(m0, rows0) && AllFit(m0, log) && p < |log| && Survives(m0, m0.order[p]) && !log[p].Inserts?
    ensures Stand(m0, log, p) in rows0
    ensures rows0[Stand(m0, log, p)] == Own(m0, log, p) || Touches(log[p], Stand(m0, log, p))
  {
    assert Remembers(m0, rows0, m0.order[p]);
    if !Touches(log[p], Stand(m0, log, p)) { UnchangedIsRemembered(m0, rows0, log, p); }
  }

  // ----- the write-back

  lemma SurvivorIs(m0: Memory, rows0: Rows, log: seq<RowWrite>, m: Memory, rows: Rows, p: nat)
    requires Flushed(m0, rows0, log, m, rows) && Remembered(m0, rows0)
    requires p < |log| && Survives(m0, m0.order[p])
    ensures var k := m0.order[p];
            && k in m.tracked && m.tracked[k].status == Managed && Id(m, k) == Stand(m0, log, p)
            && m.tracked[k].original == m.objects[k].columns == Own(m0, log, p)
  {
    hide Applied, Free;
    var k := m0.order[p];
    assert Fits(m0, k, log[p]) && Done(m0, m, k, log[p]);
    if m0.tracked[k].status == Managed {
      assert Remembers(m0, rows0, k);
      if log[p].Skips? { UnchangedIsRemembered(m0, rows0, log, p); }
    }
  }

  /** A row that a removed entity went by is there afterwards only if another entity was given it. */
  lemma RemovedIsGone(m0: Memory, rows0: Rows, log: seq<RowWrite>, m: Memory, rows: Rows, q: nat)
    requires Flushed(m0, rows0, log, m, rows) && Remembered(m0, rows0)
    requires q < |log| && m0.tracked[m0.order[q]].status == Removed
    ensures CameOut(m0, m, rows, m0.order[q])
    ensures Id(m0, m0.order[q]) in rows ==> GivenAfter(log, q, Id(m0, m0.order[q]))
  {
    hide Applied, Free, Held, WellFormed, Fits;
    FlushIsWellFormed(m0, rows0, log, m, rows);
    var k, id := m0.order[q], Id(m0, m0.order[q]);
    assert Done(m0, m, k, log[q]);
    FitsAt(m0, log, q);
    if id in rows {
      if !GivenAfter(log, q, id) {
        GoneUntilGiven(rows0, log, q, id);
      }
      var r :| q < r < |log| && log[r].Inserts? && log[r].id == id;
      GivenIsHeld(m0, rows0, log, m, rows, r);
    }
  }

  lemma GivenIsHeld(m0: Memory, rows0: Rows, log: seq<RowWrite>, m: Memory, rows: Rows, r: nat)
    requires Flushed(m0, rows0, log, m, rows) && Remembered(m0, rows0) && r < |log| && log[r].Inserts?
    ensures WellFormed(m) && Held(m, log[r].id)
  {
    hide Applied, Free, Held, Fits;
    FitsAt(m0, log, r);
    SurvivorIs(m0, rows0, log, m, rows, r);
    TakenBy(m, m0.order[r], log[r].id);
  }

  lemma TakenBy(m: Memory, k: Ref, id: RowId)
    requires WellFormed(m) && k in m.tracked && m.tracked[k].status == Managed && Id(m, k) == id
    ensures Held(m, id)
  {}

  lemma OutsideIsSame(m0: Memory, rows0: Rows, log: seq<RowWrite>, m: Memory, rows: Rows)
    requires Flushed(m0, rows0, log, m, rows) && Remembered(m0, rows0)
    ensures SameOutside(m0, rows0, m, rows)
  {
    hide Applied, Free;
    forall id | Foreign(m0, id) && Foreign(m, id)
      ensures (id in rows <==> id in rows0) && (id in rows ==> rows[id] == rows0[id])
    {
      forall i | 0 <= i < |log|
        ensures !Touches(log[i], id)
      {
        var k := m0.order[i];
        assert Fits(m0, k, log[i]) && k in m0.tracked;
        if m0.tracked[k].status == New { SurvivorIs(m0, rows0, log, m, rows, i); }
      }
      Untouched(rows0, log, id);
    }
  }

  lemma FlushIsConfined(m0: Memory, rows0: Rows, log: seq<RowWrite>, m: Memory, rows: Rows)
    requires Flushed(m0, rows0, log, m, rows)
    ensures Confined(m0, m)
  {
    hide Applied, Free, Fits, Done, SameButKey, WellFormed;
    forall k | k in m0.tracked
      ensures k in m0.objects && SameButKey(m0.tracked[k], m0.objects[k], m.objects[k])
    {
      PositionOf(m0, k);
      var i :| 0 <= i < |log| && m0.order[i] == k;
      DoneIsConfined(m0, m, k, log[i]);
    }
  }

  lemma PositionOf(m: Memory, k: Ref)
    requires WellFormed(m) && k in m.tracked
    ensures exists i :: 0 <= i < |m.order| && m.order[i] == k
  {
    assert k in m.order;
  }

  lemma DoneIsConfined(m0: Memory, m: Memory, k: Ref, w: RowWrite)
    requires WellFormed(m0) && k in m0.tracked && Fits(m0, k, w) && Done(m0, m, k, w)
    ensures k in m0.objects && k in m.objects && SameButKey(m0.tracked[k], m0.objects[k], m.objects[k])
  {}

  /** A flush of entities that remember their rows is a correct write-back exactly if no two entities
      that stand for one row disagree, and no removed entity takes the row of another one along. */
  lemma FlushWritesBack(m0: Memory, rows0: Rows, log: seq<RowWrite>, m: Memory, rows: Rows)
    requires Flushed(m0, rows0, log, m, rows) && Remembered(m0, rows0)
    ensures WroteBack(m0, rows0, m, rows) <==> AgreeOnRows(m0, log) && GivenBack(m0, log)
  {
    hide Progress, Confined, SameOutside, CameOut;
    FlushIsConfined(m0, rows0, log, m, rows);
    OutsideIsSame(m0, rows0, log, m, rows);
    FlushShape(m0, rows0, log, m, rows);
    if AgreeOnRows(m0, log) && GivenBack(m0, log) {
      forall k | k in m0.tracked
        ensures CameOut(m0, m, rows, k)
      {
        var p :| 0 <= p < |log| && m0.order[p] == k;
        ComesOut(m0, rows0, log, m, rows, p);
      }
    }
    if WroteBack(m0, rows0, m, rows) {
      WroteBackAgrees(m0, rows0, log, m, rows);
      WroteBackGives(m0, rows0, log, m, rows);
    }
  }

  /** After any flush of entities that remember their rows, the next one finds nothing to write. */
  lemma FlushedIsSettled(m0: Memory, rows0: Rows, log: seq<RowWrite>, m: Memory, rows: Rows)
    requires Flushed(m0, rows0, log, m, rows) && Remembered(m0, rows0)
    ensures forall k | k in m.tracked :: Settled(m, k)
  {
    hide Applied, Free, Fits, Remembered;
    forall k | k in m.tracked
      ensures Settled(m, k)
    {
      PositionOf(m0, k);
      var p :| 0 <= p < |log| && m0.order[p] == k;
      assert Done(m0, m, k, log[p]);
      if Survives(m0, k) { SurvivorIs(m0, rows0, log, m, rows, p); }
    }
  }

  lemma FlushShape(m0: Memory, rows0: Rows, log: seq<RowWrite>, m: Memory, rows: Rows)
    requires Flushed(m0, rows0, log, m, rows)
    ensures WellFormed(m0) && WellFormed(m) && AllFit(m0, log) && Free(rows0, log) && rows == Applied(rows0, log)
    ensures forall k | k in m0.tracked :: exists p :: 0 <= p < |log| && m0.order[p] == k
  {
    hide Applied, Free, Fits, Done;
    forall k | k in m0.tracked
      ensures exists p :: 0 <= p < |log| && m0.order[p] == k
    {
      assert k in m0.order;
    }
  }

  lemma ComesOut(m0: Memory, rows0: Rows, log: seq<RowWrite>, m: Memory, rows: Rows, p: nat)
    requires Flushed(m0, rows0, log, m, rows) && Remembered(m0, rows0)
    requires AgreeOnRows(m0, log) && GivenBack(m0, log) && p < |log|
    ensures m0.order[p] in m0.tracked && CameOut(m0, m, rows, m0.order[p])
  {
    hide AgreeOnRows, GivenBack, Applied, Free, Fits;
    FlushShape(m0, rows0, log, m, rows);
    var k := m0.order[p];
    assert k in m0.tracked && Done(m0, m, k, log[p]);
    if m0.tracked[k].status == Removed {
      RemovedIsGone(m0, rows0, log, m, rows, p);
    } else if Survives(m0, k) {
      SurvivorIs(m0, rows0, log, m, rows, p);
      SurvivorHasRow(m0, rows0, log, p);
    }
  }

  lemma WroteBackAgrees(m0: Memory, rows0: Rows, log: seq<RowWrite>, m: Memory, rows: Rows)
    requires Flushed(m0, rows0, log, m, rows) && Remembered(m0, rows0) && WroteBack(m0, rows0, m, rows)
    ensures AgreeOnRows(m0, log)
  {
    hide Progress, Confined, SameOutside, Stand, Own;
    forall p | 0 <= p < |log| && Survives(m0, m0.order[p])
      ensures Stand(m0, log, p) in rows && rows[Stand(m0, log, p)] == Own(m0, log, p)
    {
      SurvivorIs(m0, rows0, log, m, rows, p);
      assert CameOut(m0, m, rows, m0.order[p]);
    }
  }

  lemma WroteBackGives(m0: Memory, rows0: Rows, log: seq<RowWrite>, m: Memory, rows: Rows)
    requires Flushed(m0, rows0, log, m, rows) && Remembered(m0, rows0) && WroteBack(m0, rows0, m, rows)
    ensures GivenBack(m0, log)
  {
    hide Progress, Confined, SameOutside, Stand, Own;
    forall p, q | 0 <= p < |log| && 0 <= q < |log| && Survives(m0, m0.order[p])
      && m0.order[q] in m0.tracked && m0.tracked[m0.order[q]].status == Removed
      && Stand(m0, log, p) == Id(m0, m0.order[q])
      ensures GivenAfter(log, q, Stand(m0, log, p))
    {
      SurvivorIs(m0, rows0, log, m, rows, p);
      assert CameOut(m0, m, rows, m0.order[p]);
      RemovedIsGone(m0, rows0, log, m, rows, q);
    }
  }

  // ----- what can be seen before the flush

  /** An insert for `k` may write the row `id`. */
  ghost predicate MayBeGiven(m: Memory, k: Ref, id: RowId)
    requires WellFormed(m) && k in m.tracked
  {
    id.table == m.tracked[k].table && KeyFits(m.tracked[k], m.objects[k], id.key)
  }

  /** The database never generates an empty key, so no new entity with a generated key takes one. */
  lemma EmptyKeyIsNeverGiven(m: Memory, k: Ref, id: RowId)
    requires WellFormed(m) && k in m.tracked && m.tracked[k].generated && IsEmptyGenerated(id.key)
    ensures !MayBeGiven(m, k, id)
  {}

  ghost predicate IsAt(m: Memory, i: int, s: Status)
    requires WellFormed(m) && 0 <= i < |m.order|
  {
    m.tracked[m.order[i]].status == s
  }

  /** Managed entities that share a row agree, none shares its row with a removed one, and no insert that
      comes before a delete may be given the row that is to be deleted, unless that row is there until then. */
  ghost predicate Apart(m: Memory, rows: Rows) {
    && WellFormed(m)
    && (forall p, q | 0 <= p < |m.order| && 0 <= q < |m.order|
                      && IsAt(m, p, Managed) && Id(m, m.order[p]) == Id(m, m.order[q]) ::
          && !IsAt(m, q, Removed)
          && (IsAt(m, q, Managed) ==> m.objects[m.order[p]].columns == m.objects[m.order[q]].columns))
    && (forall p, q | 0 <= p < q < |m.order| && IsAt(m, p, New) && IsAt(m, q, Removed)
          && MayBeGiven(m, m.order[p], Id(m, m.order[q])) ::
          && Id(m, m.order[q]) in rows
          && (forall i | 0 <= i < p && IsAt(m, i, Removed) :: Id(m, m.order[i]) != Id(m, m.order[q])))
  }

  /** A row that is not deleted stays. */
  lemma {:induction false} StaysThere(rows: Rows, log: seq<RowWrite>, a: nat, b: nat, id: RowId)
    requires a <= b <= |log| && id in Applied(rows, log[..a])
    requires forall i | a <= i < b :: log[i] != Deletes(id)
    ensures id in Applied(rows, log[..b])
  {
    if a < b {
      StaysThere(rows, log, a, b - 1, id);
      assert log[..b][..b - 1] == log[..b - 1] && log[..b][b - 1] == log[b - 1];
    }
  }

  /** An insert goes to a row that was there once only if the row was deleted in between. */
  lemma DeletedBetween(rows: Rows, log: seq<RowWrite>, a: nat, b: nat, id: RowId)
    requires Free(rows, log) && a <= b < |log| && id in Applied(rows, log[..a])
    requires log[b].Inserts? && log[b].id == id
    ensures exists i :: a <= i < b && log[i] == Deletes(id)
  {
    if forall i | a <= i < b :: log[i] != Deletes(id) {
      StaysThere(rows, log, a, b, id);
    }
  }

  lemma FitsAt(m: Memory, log: seq<RowWrite>, i: nat)
    requires AllFit(m, log) && i < |log|
    ensures log[i].Inserts? <==> IsAt(m, i, New)
    ensures log[i].Inserts? ==> MayBeGiven(m, m.order[i], log[i].id)
    ensures log[i].Deletes? <==> IsAt(m, i, Removed)
    ensures log[i].Deletes? ==> log[i] == Deletes(Id(m, m.order[i]))
  {
    assert Fits(m, m.order[i], log[i]);
  }

  /** No entity is given a row that is then deleted. */
  lemma NotGivenBefore(m: Memory, rows: Rows, log: seq<RowWrite>, p: nat, q: nat)
    requires AllFit(m, log) && Free(rows, log) && Apart(m, rows) && p < q < |log|
    ensures !(log[p].Inserts? && log[q] == Deletes(log[p].id))
  {
    hide Free, Applied, Fits, MayBeGiven;
    FitsAt(m, log, p);
    FitsAt(m, log, q);
    if log[p].Inserts? && log[q] == Deletes(log[p].id) {
      NothingApplied(rows, log);
      DeletedBetween(rows, log, 0, p, log[p].id);
      var i :| 0 <= i < p && log[i] == Deletes(log[p].id);
      FitsAt(m, log, i);
    }
  }

  lemma NothingApplied(rows: Rows, log: seq<RowWrite>)
    ensures Applied(rows, log[..0]) == rows
  {}

  lemma InsertedIsThere(rows: Rows, log: seq<RowWrite>, p: nat)
    requires p < |log| && log[p].Inserts?
    ensures log[p].id in Applied(rows, log[..p + 1])
  {
    assert log[..p + 1][..p] == log[..p] && log[..p + 1][p] == log[p];
  }

  lemma GivenOnce(m: Memory, rows: Rows, log: seq<RowWrite>, p: nat, q: nat)
    requires AllFit(m, log) && Free(rows, log) && Apart(m, rows) && p < q < |log|
    ensures !(log[p].Inserts? && log[q].Inserts? && log[p].id == log[q].id)
  {
    hide Free, Applied, Apart, Fits;
    if log[p].Inserts? && log[q].Inserts? && log[p].id == log[q].id {
      InsertedIsThere(rows, log, p);
      DeletedBetween(rows, log, p + 1, q, log[p].id);
      var i :| p + 1 <= i < q && log[i] == Deletes(log[p].id);
      NotGivenBefore(m, rows, log, p, i);
    }
  }

  lemma ManagedRowIsNotGiven(m: Memory, rows: Rows, log: seq<RowWrite>, p: nat, q: nat)
    requires Remembered(m, rows) && AllFit(m, log) && Free(rows, log) && Apart(m, rows) && p < |log| && q < |log|
    ensures !(IsAt(m, p, Managed) && log[q].Inserts? && log[q].id == Id(m, m.order[p]))
  {
    hide Free, Applied, Fits;
    if IsAt(m, p, Managed) && log[q].Inserts? && log[q].id == Id(m, m.order[p]) {
      assert Remembers(m, rows, m.order[p]);
      NothingApplied(rows, log);
      DeletedBetween(rows, log, 0, q, log[q].id);
      var i :| 0 <= i < q && log[i] == Deletes(log[q].id);
      FitsAt(m, log, i);
    }
  }

  /** A flush that is a correct write-back exactly under the condition on its statements, and under what can
      be seen beforehand. */
  ghost predicate WritesBackExactly(m0: Memory, rows0: Rows, log: seq<RowWrite>, m: Memory, rows: Rows) {
    && Flushed(m0, rows0, log, m, rows)
    && (WroteBack(m0, rows0, m, rows) <==> AgreeOnRows(m0, log) && GivenBack(m0, log))
    && (Apart(m0, rows0) ==> WroteBack(m0, rows0, m, rows))
  }

  lemma EveryFlush(m0: Memory, rows0: Rows, log: seq<RowWrite>, m: Memory, rows: Rows)
    requires Flushed(m0, rows0, log, m, rows) && Remembered(m0, rows0)
    ensures WritesBackExactly(m0, rows0, log, m, rows)
  {
    hide WroteBack, Remembered, Progress, AgreeOnRows, GivenBack, Apart;
    FlushIsWellFormed(m0, rows0, log, m, rows);
    FlushWritesBack(m0, rows0, log, m, rows);
    if Apart(m0, rows0) { ApartWritesBack(m0, rows0, log, m, rows); }
  }

  lemma FlushIsWellFormed(m0: Memory, rows0: Rows, log: seq<RowWrite>, m: Memory, rows: Rows)
    requires Flushed(m0, rows0, log, m, rows)
    ensures WellFormed(m0) && |log| == |m0.order|
  {}

  /** What can be checked beforehand makes every flush that succeeds a correct write-back. */
  lemma ApartWritesBack(m0: Memory, rows0: Rows, log: seq<RowWrite>, m: Memory, rows: Rows)
    requires Flushed(m0, rows0, log, m, rows) && Remembered(m0, rows0) && Apart(m0, rows0)
    ensures WroteBack(m0, rows0, m, rows)
  {
    hide Progress, Confined, SameOutside, CameOut, Remembered;
    FlushShape(m0, rows0, log, m, rows);
    ApartAgrees(m0, rows0, log);
    ApartGives(m0, rows0, log);
    FlushWritesBack(m0, rows0, log, m, rows);
  }

  lemma ApartAgrees(m: Memory, rows: Rows, log: seq<RowWrite>)
    requires Remembered(m, rows) && AllFit(m, log) && Free(rows, log) && Apart(m, rows)
    ensures AgreeOnRows(m, log)
  {
    hide Free, Fits, Remembered;
    forall p, q | 0 <= p < |log| && 0 <= q < |log| && Survives(m, m.order[p]) && Survives(m, m.order[q])
      && Stand(m, log, p) == Stand(m, log, q)
      ensures Own(m, log, p) == Own(m, log, q)
    {
      FitsAt(m, log, p);
      FitsAt(m, log, q);
      ManagedRowIsNotGiven(m, rows, log, p, q);
      ManagedRowIsNotGiven(m, rows, log, q, p);
      if p < q { GivenOnce(m, rows, log, p, q); } else if q < p { GivenOnce(m, rows, log, q, p); }
    }
  }

  lemma ApartGives(m: Memory, rows: Rows, log: seq<RowWrite>)
    requires Remembered(m, rows) && AllFit(m, log) && Free(rows, log) && Apart(m, rows)
    ensures GivenBack(m, log)
  {
    hide Free, Fits, Remembered;
    forall p, q | 0 <= p < |log| && 0 <= q < |log| && Survives(m, m.order[p]) && IsAt(m, q, Removed)
      && Stand(m, log, p) == Id(m, m.order[q])
      ensures GivenAfter(log, q, Stand(m, log, p))
    {
      FitsAt(m, log, p);
      FitsAt(m, log, q);
      if p < q { NotGivenBefore(m, rows, log, p, q); }
    }
  }

  // ----- where it fails

  lemma AppliedTwo(rows: Rows, u: RowWrite, w: RowWrite)
    ensures Applied(rows, [u, w]) == Apply(Apply(rows, u), w)
    ensures Applied(rows, [u, w][..1]) == Apply(rows, u) && Applied(rows, [u, w][..0]) == rows
  {
    hide Apply;
    assert [u, w][..1] == [u] && [u][..0] == [] && [u, w][..0] == [];
    assert Applied(rows, [u]) == Apply(Applied(rows, []), u);
    assert Applied(rows, [u, w]) == Apply(Applied(rows, [u]), w);
  }

  function Sample(id: int, qty: int, rank: int): Columns {
    map["id" := Int(id), "qty" := Int(qty), "rank" := Int(rank)]
  }

  const ROW: RowId := RowId("t", Int(1))

  function ManagedSample(original: Columns): Tracked { Tracked(Managed, "t", "id", true, original) }

  /** Two managed entities for one row, each with a change of its own. */
  ghost function TwoBefore(a: Ref, b: Ref): Memory {
    Memory(map[a := ManagedSample(Sample(1, 0, 0)), b := ManagedSample(Sample(1, 0, 0))], [a, b],
           map[a := Entity(Sample(1, 1, 0), []), b := Entity(Sample(1, 0, 1), [])])
  }

  ghost function TwoAfter(a: Ref, b: Ref): Memory {
    TwoBefore(a, b).(tracked := map[a := ManagedSample(Sample(1, 1, 0)), b := ManagedSample(Sample(1, 0, 1))])
  }

  function TwoLog(): seq<RowWrite> { [Updates(ROW, map["qty" := Int(1)]), Updates(ROW, map["rank" := Int(1)])] }

  lemma TwoAreWellFormed(a: Ref, b: Ref)
    requires a != b
    ensures WellFormed(TwoBefore(a, b)) && WellFormed(TwoAfter(a, b))
    ensures Id(TwoBefore(a, b), a) == Id(TwoBefore(a, b), b) == ROW
  {}

  lemma NamesDiffer()
    ensures "id" != "qty" && "id" != "rank" && "qty" != "rank"
  {
    assert |"id"| == 2 && |"qty"| == 3 && |"rank"| == 4;
  }

  lemma SampleGets(qty: int, rank: int)
    ensures Sample(1, 0, rank) + map["qty" := Int(qty)] == Sample(1, qty, rank)
    ensures Sample(1, qty, 0) + map["rank" := Int(rank)] == Sample(1, qty, rank)
  {
    NamesDiffer();
  }

  lemma TwoRows()
    ensures Applied(map[ROW := Sample(1, 0, 0)], TwoLog()) == map[ROW := Sample(1, 1, 1)]
    ensures Free(map[ROW := Sample(1, 0, 0)], TwoLog())
  {
    var rows, x, y: RowWrite := map[ROW := Sample(1, 0, 0)], TwoLog()[0], TwoLog()[1];
    AppliedTwo(rows, x, y);
    assert TwoLog() == [x, y];
    SampleGets(1, 0);
    SampleGets(1, 1);
    hide Applied, Sample;
    assert Apply(rows, x) == map[ROW := Sample(1, 1, 0)];
    assert Apply(map[ROW := Sample(1, 1, 0)], y) == map[ROW := Sample(1, 1, 1)];
  }

  lemma SampleChanged()
    ensures Changed(ManagedSample(Sample(1, 0, 0)), Sample(1, 1, 0)) == map["qty" := Int(1)]
    ensures Changed(ManagedSample(Sample(1, 0, 0)), Sample(1, 0, 1)) == map["rank" := Int(1)]
  {
    NamesDiffer();
  }

  lemma TwoFit(a: Ref, b: Ref)
    requires a != b
    ensures WellFormed(TwoBefore(a, b)) && Fits(TwoBefore(a, b), a, TwoLog()[0])
            && Fits(TwoBefore(a, b), b, TwoLog()[1])
  {
    hide WellFormed, Changed, Id;
    TwoAreWellFormed(a, b);
    SampleChanged();
    hide Sample;
    assert "qty" in TwoLog()[0].changes && "rank" in TwoLog()[1].changes;
  }

  /** Both updates arrive, and neither entity ends up like the row. */
  lemma TwoForOneRow(a: Ref, b: Ref)
    requires a != b
    ensures Remembered(TwoBefore(a, b), map[ROW := Sample(1, 0, 0)])
    ensures Flushed(TwoBefore(a, b), map[ROW := Sample(1, 0, 0)], TwoLog(), TwoAfter(a, b), map[ROW := Sample(1, 1, 1)])
    ensures !WroteBack(TwoBefore(a, b), map[ROW := Sample(1, 0, 0)], TwoAfter(a, b), map[ROW := Sample(1, 1, 1)])
  {
    hide Progress, CameOut, WellFormed, Remembered, Sample;
    TwoAreRemembered(a, b);
    TwoProgress(a, b);
    TwoComeOut(a, b);
  }

  lemma TwoAreRemembered(a: Ref, b: Ref)
    requires a != b
    ensures Remembered(TwoBefore(a, b), map[ROW := Sample(1, 0, 0)])
  {
    hide WellFormed, Id;
    TwoAreWellFormed(a, b);
  }

  lemma TwoProgress(a: Ref, b: Ref)
    requires a != b
    ensures Progress(TwoBefore(a, b), map[ROW := Sample(1, 0, 0)], TwoLog(), TwoAfter(a, b),
                     map[ROW := Sample(1, 1, 1)])
  {
    hide WellFormed, Id, Applied, Free, Fits, Sample;
    TwoAreWellFormed(a, b);
    TwoRows();
    TwoFit(a, b);
  }

  lemma TwoComeOut(a: Ref, b: Ref)
    requires a != b
    ensures WellFormed(TwoBefore(a, b)) && WellFormed(TwoAfter(a, b))
    ensures !CameOut(TwoBefore(a, b), TwoAfter(a, b), map[ROW := Sample(1, 1, 1)], a)
  {
    hide WellFormed;
    TwoAreWellFormed(a, b);
    NamesDiffer();
    assert Sample(1, 1, 1)["rank"] != Sample(1, 1, 0)["rank"];
  }

  function NewSample(): Tracked { Tracked(New, "t", "id", false, map[]) }

  /** A new entity, and after it a removed one that never had a row, with one key. */
  ghost function TakenBefore(n: Ref, r: Ref): Memory {
    Memory(map[n := NewSample(), r := NewSample().(status := Removed)], [n, r],
           map[n := Entity(Sample(1, 0, 0), []), r := Entity(Sample(1, 0, 0), [])])
  }

  ghost function TakenAfter(n: Ref, r: Ref): Memory {
    TakenBefore(n, r).(tracked := map[n := NewSample().(status := Managed, original := Sample(1, 0, 0))], order := [n])
  }

  function TakenLog(): seq<RowWrite> { [Inserts(ROW, Sample(1, 0, 0)), Deletes(ROW)] }

  lemma TakenAreWellFormed(n: Ref, r: Ref)
    requires n != r
    ensures WellFormed(TakenBefore(n, r)) && WellFormed(TakenAfter(n, r))
    ensures Fits(TakenBefore(n, r), n, TakenLog()[0]) && Fits(TakenBefore(n, r), r, TakenLog()[1])
  {
    NamesDiffer();
    assert Sample(1, 0, 0)["id" := Int(1)] == Sample(1, 0, 0);
    hide Sample;
  }

  lemma TakenRows()
    ensures Applied(map[], TakenLog()) == map[] && Free(map[], TakenLog())
  {
    var rows: Rows, i, d: RowWrite := map[], TakenLog()[0], TakenLog()[1];
    AppliedTwo(rows, i, d);
    assert TakenLog() == [i, d];
    hide Applied, Sample;
    assert Apply(rows, i) == map[ROW := Sample(1, 0, 0)];
    var left := Apply(map[ROW := Sample(1, 0, 0)], d);
    assert forall k :: k !in left;
    assert left.Keys == rows.Keys;
  }

  /** The DELETE takes the row that the INSERT has just made. */
  lemma RemovedTakesRow(n: Ref, r: Ref)
    requires n != r
    ensures Remembered(TakenBefore(n, r), map[])
    ensures Flushed(TakenBefore(n, r), map[], TakenLog(), TakenAfter(n, r), map[])
    ensures !WroteBack(TakenBefore(n, r), map[], TakenAfter(n, r), map[])
  {
    hide Applied, Free, Fits, WellFormed;
    TakenAreWellFormed(n, r);
    TakenRows();
    assert !CameOut(TakenBefore(n, r), TakenAfter(n, r), map[], n);
  }

  /** Persisting an entity that has no key yet, and removing it before a flush, harms nothing. */
  lemma NeverInserted(k: Ref, table: string, primaryKey: string, e: Entity, rows: Rows)
    requires primaryKey in e.columns && IsEmptyGenerated(e.columns[primaryKey])
    ensures var m := Memory(map[k := Tracked(Removed, table, primaryKey, true, map[])], [k], map[k := e]);
            Remembered(m, rows) && Apart(m, rows)
  {}

  /** No flush inserts a managed entity. If nothing is remembered of it, every column but the key is sent as an
      update, which does nothing while there is no row. */
  lemma ManagedIsNeverInserted(m0: Memory, rows0: Rows, log: seq<RowWrite>, m: Memory, rows: Rows, p: nat)
    requires Flushed(m0, rows0, log, m, rows) && p < |log| && IsAt(m0, p, Managed)
    ensures forall r: Rows :: Id(m0, m0.order[p]) !in r ==> Apply(r, log[p]) == r
    ensures var t, columns := m0.tracked[m0.order[p]], m0.objects[m0.order[p]].columns;
            t.original == map[] ==>
              && !Remembered(m0, rows0)
              && forall c | c in columns && c != t.primaryKey ::
                   log[p].Updates? && c in log[p].changes && log[p].changes[c] == columns[c]
  {
    hide Applied, Free;
    FlushIsWellFormed(m0, rows0, log, m, rows);
    SentForManaged(m0, rows0, m0.order[p], log[p]);
  }

  lemma SentForManaged(m0: Memory, rows0: Rows, k: Ref, w: RowWrite)
    requires WellFormed(m0) && k in m0.tracked && m0.tracked[k].status == Managed && Fits(m0, k, w)
    ensures !w.Inserts?
    ensures forall r: Rows :: Id(m0, k) !in r ==> Apply(r, w) == r
    ensures m0.tracked[k].original == map[] ==>
              && !Remembered(m0, rows0)
              && forall c | c in m0.objects[k].columns && c != m0.tracked[k].primaryKey ::
                   w.Updates? && c in w.changes && w.changes[c] == m0.objects[k].columns[c]
  {
    assert Remembered(m0, rows0) ==> Remembers(m0, rows0, k);
    var changed := Changed(m0.tracked[k], m0.objects[k].columns);
    forall c | c in m0.objects[k].columns && c != m0.tracked[k].primaryKey && m0.tracked[k].original == map[]
      ensures c in changed && changed[c] == m0.objects[k].columns[c]
    {}
  }

  /** Alone, such an entity is flushed without an error and without a row. */
  lemma RevivedHasNoRow(m0: Memory, rows0: Rows, log: seq<RowWrite>, m: Memory, rows: Rows, k: Ref)
    requires Flushed(m0, rows0, log, m, rows) && m0.order == [k]
    requires k in m0.tracked && m0.tracked[k].status == Managed && Id(m0, k) !in rows0
    ensures rows == rows0 && k in m.tracked && Id(m0, k) !in rows
  {
    assert IsAt(m0, 0, Managed);
    ManagedIsNeverInserted(m0, rows0, log, m, rows, 0);
    assert log == [log[0]] && log[..0] == [];
    assert Applied(rows0, log[..0]) == rows0;
    assert Done(m0, m, k, log[0]);
  }
}
