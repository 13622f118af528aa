/** What a flush sends to the database for each tracked entity, and what that does to memory and rows. */
module Flushing {
  import opened Values
  import opened Checkpoints
  import opened Database

  /** The row that a tracked entity stands for. */
  ghost function Id(m: Memory, k: Ref): RowId
    requires WellFormed(m) && k in m.tracked
  {
    RowId(m.tracked[k].table, m.objects[k].columns[m.tracked[k].primaryKey])
  }

  /** Nothing is left to write for `k`. */
  ghost predicate Settled(m: Memory, k: Ref) {
    k in m.tracked && k in m.objects &&
      (m.tracked[k].status == Detached
       || (m.tracked[k].status == Managed && m.tracked[k].original == m.objects[k].columns))
  }

  // ----- statements

  /** The statement for one entity; none for an entity that is unchanged or detached. */
  datatype RowWrite =
    | Inserts(id: RowId, columns: Columns)
    | Updates(id: RowId, changes: Columns)
    | Deletes(id: RowId)
    | Skips

  function Apply(rows: Rows, w: RowWrite): Rows {
    match w
    case Inserts(id, columns) => rows[id := columns]
    case Updates(id, changes) => if id in rows then rows[id := rows[id] + changes] else rows
    case Deletes(id) => rows - {id}
    case Skips => rows
  }

  /** The rows after the statements of `log`, in order. */
  function Applied(rows: Rows, log: seq<RowWrite>): Rows {
    if log == [] then rows else Apply(Applied(rows, log[..|log| - 1]), log[|log| - 1])
  }

  /** Every insert went to a row that was not there. */
  ghost predicate Free(rows: Rows, log: seq<RowWrite>) {
    forall i | 0 <= i < |log| && log[i].Inserts? :: log[i].id !in Applied(rows, log[..i])
  }

  lemma AppliedMore(rows: Rows, log: seq<RowWrite>, w: RowWrite)
    requires Free(rows, log) && (w.Inserts? ==> w.id !in Applied(rows, log))
    ensures Applied(rows, log + [w]) == Apply(Applied(rows, log), w) && Free(rows, log + [w])
  {
    var more := log + [w];
    assert more[..|log|] == log;
    forall i | 0 <= i < |more| && more[i].Inserts?
      ensures more[i].id !in Applied(rows, more[..i])
    {
      if i < |log| { assert more[..i] == log[..i]; }
    }
  }

  // ----- one entity

  /** The columns other than the key that differ from what is remembered. */
  function Changed(t: Tracked, columns: Columns): Columns {
    map c | c in columns && c != t.primaryKey && !(c in t.original && t.original[c] == columns[c]) :: columns[c]
  }

  /** The key that an INSERT may give: a new one of the database's, or the entity's own. */
  predicate KeyFits(t: Tracked, e: Entity, key: Value) {
    t.primaryKey in e.columns &&
      if t.generated && IsEmptyGenerated(e.columns[t.primaryKey]) then !IsEmptyGenerated(key)
      else key == e.columns[t.primaryKey]
  }

  /** The statement that an entity calls for. */
  ghost predicate Fits(m: Memory, k: Ref, w: RowWrite)
    requires WellFormed(m) && k in m.tracked
  {
    var t, columns := m.tracked[k], m.objects[k].columns;
    match t.status
    case New =>
      && w.Inserts? && w.id.table == t.table && KeyFits(t, m.objects[k], w.id.key)
      && w.columns == columns[t.primaryKey := w.id.key]
    case Managed => w == if Changed(t, columns) == map[] then Skips else Updates(Id(m, k), Changed(t, columns))
    case Removed => w == Deletes(Id(m, k))
    case Detached => w == Skips
  }

  /** What the statement makes of the entity in memory. */
  ghost predicate Done(m0: Memory, m: Memory, k: Ref, w: RowWrite)
    requires WellFormed(m0) && k in m0.tracked
  {
    var t, e := m0.tracked[k], m0.objects[k];
    && k in m.objects
    && match t.status
       case New =>
         && w.Inserts? && m.objects[k] == e.(columns := w.columns)
         && k in m.tracked && m.tracked[k] == t.(status := Managed, original := w.columns)
       case Managed =>
         && m.objects[k] == e && k in m.tracked
         && m.tracked[k] == if w.Skips? then t else t.(original := e.columns)
       case Removed => m.objects[k] == e && k !in m.tracked
       case Detached => m.objects[k] == e && k in m.tracked && m.tracked[k] == t
  }

  ghost predicate Kept(m0: Memory, m: Memory, k: Ref) {
    && k in m0.tracked && k in m.tracked && m.tracked[k] == m0.tracked[k]
    && k in m0.objects && k in m.objects && m.objects[k] == m0.objects[k]
  }

  /** The statement for `k`, and nothing else, has been done in memory and database. */
  ghost predicate Writes(m: Memory, rows: Rows, k: Ref, w: RowWrite, m': Memory, rows': Rows)
    requires WellFormed(m) && k in m.tracked
  {
    && Fits(m, k, w) && Done(m, m', k, w) && WellFormed(m')
    && m'.tracked.Keys <= m.tracked.Keys && m'.objects.Keys == m.objects.Keys
    && (forall j | j in m.tracked && j != k :: j in m'.tracked && m'.tracked[j] == m.tracked[j])
    && (forall j | j in m.objects && j != k :: m'.objects[j] == m.objects[j])
    && rows' == Apply(rows, w) && (w.Inserts? ==> w.id !in rows)
  }

  ghost function Inserted(m: Memory, k: Ref, key: Value): Memory
    requires k in m.tracked && k in m.objects
  {
    var t, columns := m.tracked[k], m.objects[k].columns[m.tracked[k].primaryKey := key];
    m.(tracked := m.tracked[k := t.(status := Managed, original := columns)],
       objects := m.objects[k := m.objects[k].(columns := columns)])
  }

  ghost function InsertOf(m: Memory, k: Ref, key: Value): RowWrite
    requires k in m.tracked && k in m.objects
  {
    Inserts(RowId(m.tracked[k].table, key), m.objects[k].columns[m.tracked[k].primaryKey := key])
  }

  ghost function Updated(m: Memory, k: Ref): Memory
    requires k in m.tracked && k in m.objects
  {
    if Changed(m.tracked[k], m.objects[k].columns) == map[] then m
    else m.(tracked := m.tracked[k := m.tracked[k].(original := m.objects[k].columns)])
  }

  ghost function UpdateOf(m: Memory, k: Ref): RowWrite
    requires WellFormed(m) && k in m.tracked
  {
    var changed := Changed(m.tracked[k], m.objects[k].columns);
    if changed == map[] then Skips else Updates(Id(m, k), changed)
  }

  ghost function Deleted(m: Memory, k: Ref): Memory {
    m.(tracked := m.tracked - {k}, order := Without(m.order, k))
  }

  lemma InsertedIsQuiet(m: Memory, k: Ref, key: Value)
    requires WellFormed(m) && k in m.tracked
    ensures Quiet(m, Inserted(m, k, key))
  {}

  /** A new entity is written to a row that was not there. */
  lemma InsertWrites(m: Memory, rows: Rows, k: Ref, key: Value)
    requires WellFormed(m) && k in m.tracked && m.tracked[k].status == New
    requires RowId(m.tracked[k].table, key) !in rows && KeyFits(m.tracked[k], m.objects[k], key)
    ensures Writes(m, rows, k, InsertOf(m, k, key), Inserted(m, k, key), Apply(rows, InsertOf(m, k, key)))
  {
    InsertedIsQuiet(m, k, key);
  }

  /** An update sends the changed columns, and remembers them all. */
  lemma UpdateWrites(m: Memory, rows: Rows, k: Ref)
    requires WellFormed(m) && k in m.tracked && m.tracked[k].status == Managed
    ensures Writes(m, rows, k, UpdateOf(m, k), Updated(m, k), Apply(rows, UpdateOf(m, k)))
  {}

  /** A removed entity goes, with the row that has its key. */
  lemma DeleteWrites(m: Memory, rows: Rows, k: Ref)
    requires WellFormed(m) && k in m.tracked && m.tracked[k].status == Removed
    ensures Writes(m, rows, k, Deletes(Id(m, k)), Deleted(m, k), rows - {Id(m, k)})
  {
    WithoutKeeps(m.order, k);
  }

  /** There is nothing to write for a detached entity. */
  lemma DetachedStays(m: Memory, rows: Rows, k: Ref)
    requires WellFormed(m) && k in m.tracked && m.tracked[k].status == Detached
    ensures Writes(m, rows, k, Skips, m, rows)
  {}

  // ----- all of them

  /** One statement for each of the first entities, in tracking order; the others are as they were. */
  ghost predicate Progress(m0: Memory, rows0: Rows, log: seq<RowWrite>, m: Memory, rows: Rows) {
    && WellFormed(m0) && WellFormed(m) && |log| <= |m0.order|
    && (forall i | 0 <= i < |log| :: Fits(m0, m0.order[i], log[i]) && Done(m0, m, m0.order[i], log[i]))
    && (forall i | |log| <= i < |m0.order| :: Kept(m0, m, m0.order[i]))
    && m.tracked.Keys <= m0.tracked.Keys && m.objects.Keys == m0.objects.Keys
    && (forall k | k in m0.objects && k !in m0.tracked :: m.objects[k] == m0.objects[k])
    && rows == Applied(rows0, log) && Free(rows0, log)
  }

  /** What a flush comes to, whatever was tracked. */
  ghost predicate Flushed(m0: Memory, rows0: Rows, log: seq<RowWrite>, m: Memory, rows: Rows) {
    Progress(m0, rows0, log, m, rows) && |log| == |m0.order|
  }

  lemma NothingWritten(m: Memory, rows: Rows)
    requires WellFormed(m)
    ensures Progress(m, rows, [], m, rows)
  {}

  lemma NextIsKept(m0: Memory, rows0: Rows, log: seq<RowWrite>, m: Memory, rows: Rows)
    requires Progress(m0, rows0, log, m, rows) && |log| < |m0.order|
    ensures Kept(m0, m, m0.order[|log|])
  {}

  /** One more statement: what the earlier ones did stays done. */
  lemma StepProgress(m0: Memory, rows0: Rows, log: seq<RowWrite>, m: Memory, rows: Rows,
                     w: RowWrite, m': Memory, rows': Rows)
    requires Progress(m0, rows0, log, m, rows) && |log| < |m0.order|
    requires Kept(m0, m, m0.order[|log|]) && Writes(m, rows, m0.order[|log|], w, m', rows')
    ensures Progress(m0, rows0, log + [w], m', rows')
  {
    hide Apply, Applied, Changed, Fits, Done, Writes, Kept, Free, WellFormed;
    var k, more := m0.order[|log|], log + [w];
    KeptUnpacked(m0, m, k);
    WritesUnpacked(m, rows, k, w, m', rows');
    AppliedMore(rows0, log, w);
    forall i | |more| <= i < |m0.order|
      ensures Kept(m0, m', m0.order[i])
    {
      OrderOnce(m0, |log|, i);
      KeptUnpacked(m0, m, m0.order[i]);
      KeptStays(m0, m, m', m0.order[i]);
    }
    forall i | 0 <= i < |m0.order|
      ensures m0.order[i] in m0.tracked && (i != |log| ==> m0.order[i] != k)
    {
      OrderOnce(m0, |log|, i);
    }
    forall i | 0 <= i < |more|
      ensures Fits(m0, m0.order[i], more[i]) && Done(m0, m', m0.order[i], more[i])
    {
      if i < |log| {
        DoneStays(m0, m, m', m0.order[i], log[i]);
      } else {
        SameFits(m0, m, m', k, w);
      }
    }
  }

  lemma WritesUnpacked(m: Memory, rows: Rows, k: Ref, w: RowWrite, m': Memory, rows': Rows)
    requires WellFormed(m) && k in m.tracked && Writes(m, rows, k, w, m', rows')
    ensures Fits(m, k, w) && Done(m, m', k, w) && WellFormed(m')
    ensures m'.tracked.Keys <= m.tracked.Keys && m'.objects.Keys == m.objects.Keys
    ensures forall j | j in m.tracked && j != k :: j in m'.tracked && m'.tracked[j] == m.tracked[j]
    ensures forall j | j in m.objects && j != k :: m'.objects[j] == m.objects[j]
    ensures rows' == Apply(rows, w) && (w.Inserts? ==> w.id !in rows)
  {}

  lemma KeptUnpacked(m0: Memory, m: Memory, k: Ref)
    requires Kept(m0, m, k)
    ensures k in m0.tracked && k in m.tracked && m.tracked[k] == m0.tracked[k]
    ensures k in m0.objects && k in m.objects && m.objects[k] == m0.objects[k]
  {}

  lemma OrderOnce(m: Memory, i: nat, j: nat)
    requires WellFormed(m) && i < |m.order| && j < |m.order|
    ensures m.order[i] in m.tracked && m.order[j] in m.tracked && (i != j ==> m.order[i] != m.order[j])
  {}

  lemma KeptStays(m0: Memory, m: Memory, m': Memory, k: Ref)
    requires Kept(m0, m, k) && k in m'.tracked && m'.tracked[k] == m.tracked[k]
    requires k in m'.objects && m'.objects[k] == m.objects[k]
    ensures Kept(m0, m', k)
  {}

  lemma DoneStays(m0: Memory, m: Memory, m': Memory, k: Ref, w: RowWrite)
    requires WellFormed(m0) && k in m0.tracked && Done(m0, m, k, w)
    requires k in m'.tracked <==> k in m.tracked
    requires k in m.tracked ==> m'.tracked[k] == m.tracked[k]
    requires k in m.objects ==> k in m'.objects && m'.objects[k] == m.objects[k]
    ensures Done(m0, m', k, w)
  {}

  lemma SameFits(m0: Memory, m: Memory, m': Memory, k: Ref, w: RowWrite)
    requires WellFormed(m0) && WellFormed(m) && Kept(m0, m, k) && Fits(m, k, w) && Done(m, m', k, w)
    ensures Fits(m0, k, w) && Done(m0, m', k, w)
  {}

  /** Where nothing is left to write, an update has nothing to say. */
  lemma SettledIsUnchanged(m: Memory, k: Ref)
    requires Settled(m, k) && m.tracked[k].status == Managed
    ensures Changed(m.tracked[k], m.objects[k].columns) == map[]
  {
    assert Changed(m.tracked[k], m.objects[k].columns).Keys == {};
  }

  // ----- the identity map

  /** The entity goes by its key, once it has one. */
  predicate HasIdentity(t: Tracked, e: Entity) {
    t.primaryKey in e.columns && !e.columns[t.primaryKey].Null?
    && (t.generated ==> !IsEmptyGenerated(e.columns[t.primaryKey]))
  }

  function Registered(ids: map<RowId, Ref>, t: Tracked, e: Entity, k: Ref): map<RowId, Ref> {
    if HasIdentity(t, e) then ids[RowId(t.table, e.columns[t.primaryKey]) := k] else ids
  }

  /** The identities of those of the entities `ks` that are tracked, later ones last. */
  ghost function IdentitiesOf(m: Memory, ks: seq<Ref>): map<RowId, Ref> {
    if ks == [] then map[]
    else
      var k, before := ks[|ks| - 1], IdentitiesOf(m, ks[..|ks| - 1]);
      if k in m.tracked && k in m.objects then Registered(before, m.tracked[k], m.objects[k], k) else before
  }

  // ----- memory, identities and rows together

  datatype World = World(memory: Memory, identities: map<RowId, Ref>, rows: Rows)

  /** The statement for one entity, and what it does to all three. */
  ghost function AfterWrite(v: World, k: Ref, w: RowWrite): World {
    if k !in v.memory.tracked || k !in v.memory.objects then v
    else
      match w
      case Inserts(id, _) =>
        var m := Inserted(v.memory, k, id.key);
        World(m, Registered(v.identities, m.tracked[k], m.objects[k], k), Apply(v.rows, w))
      case Updates(_, _) => World(Updated(v.memory, k), v.identities, Apply(v.rows, w))
      case Deletes(id) => World(Deleted(v.memory, k), v.identities - {id}, Apply(v.rows, w))
      case Skips => v
  }

  /** The statements of `log` for the first of the entities `ks`. */
  ghost function AfterWrites(v: World, ks: seq<Ref>, log: seq<RowWrite>): World
    requires |log| <= |ks|
  {
    if log == [] then v
    else
      var n := |log| - 1;
      AfterWrite(AfterWrites(v, ks, log[..n]), ks[n], log[n])
  }

  /** A row that was inserted under a generated key which nobody was told. */
  ghost predicate MayBeLost(m: Memory, rows: Rows, k: Ref, lost: RowWrite)
    requires WellFormed(m) && k in m.tracked
  {
    lost == Skips
    || (m.tracked[k].status == New && m.tracked[k].generated && IsEmptyGenerated(Id(m, k).key)
        && Fits(m, k, lost) && lost.id !in rows)
  }

  /** A flush as far as it came: statements that fit, one for each of the first entities, and then an insert
      that made a row and failed, or nothing. */
  ghost predicate Tried(v: World, log: seq<RowWrite>, lost: RowWrite) {
    && |log| <= |v.memory.order|
    && var u := AfterWrites(v, v.memory.order, log);
       && Progress(v.memory, v.rows, log, u.memory, u.rows)
       && (lost != Skips ==>
             |log| < |v.memory.order| && v.memory.order[|log|] in u.memory.tracked
             && MayBeLost(u.memory, u.rows, v.memory.order[|log|], lost))
  }

  ghost function AfterFlush(v: World, log: seq<RowWrite>, lost: RowWrite): World {
    if |log| <= |v.memory.order|
    then var u := AfterWrites(v, v.memory.order, log); u.(rows := Apply(u.rows, lost))
    else v
  }

  lemma AfterOneMore(v: World, ks: seq<Ref>, log: seq<RowWrite>, w: RowWrite)
    requires |log| < |ks|
    ensures AfterWrites(v, ks, log + [w]) == AfterWrite(AfterWrites(v, ks, log), ks[|log|], w)
  {
    assert (log + [w])[..|log|] == log;
  }

  /** The statement that an entity calls for does what it should. */
  lemma WriteDone(m0: Memory, v: World, k: Ref, w: RowWrite)
    requires WellFormed(m0) && WellFormed(v.memory) && Kept(m0, v.memory, k) && Fits(m0, k, w)
    requires w.Inserts? ==> w.id !in v.rows
    ensures Writes(v.memory, v.rows, k, w, AfterWrite(v, k, w).memory, AfterWrite(v, k, w).rows)
  {
    hide Writes, Inserted, Updated, Deleted, WellFormed, Apply;
    match v.memory.tracked[k].status {
      case New => InsertWrites(v.memory, v.rows, k, w.id.key);
      case Managed =>
        UpdateWrites(v.memory, v.rows, k);
        if w.Skips? { NothingChanged(v.memory, v.rows, k); }
      case Removed =>
        DeleteWrites(v.memory, v.rows, k);
        ApplyDeletes(v.rows, w);
      case Detached => DetachedStays(v.memory, v.rows, k);
    }
  }

  lemma NothingChanged(m: Memory, rows: Rows, k: Ref)
    requires WellFormed(m) && k in m.tracked && UpdateOf(m, k) == Skips
    ensures Updated(m, k) == m && Apply(rows, UpdateOf(m, k)) == rows
  {}

  lemma ApplyDeletes(rows: Rows, w: RowWrite)
    requires w.Deletes?
    ensures Apply(rows, w) == rows - {w.id}
  {}

  /** Statements that fit the tracked entities, with inserts to rows that are not there, are those of a flush. */
  lemma {:induction false} FitsAreTried(v: World, log: seq<RowWrite>)
    requires WellFormed(v.memory) && |log| <= |v.memory.order| && Free(v.rows, log)
    requires forall i | 0 <= i < |log| ::
               v.memory.order[i] in v.memory.tracked && Fits(v.memory, v.memory.order[i], log[i])
    ensures Tried(v, log, Skips)
  {
    hide Progress, Applied, Writes, Fits, AfterWrite, Free, WellFormed, MayBeLost;
    if log == [] {
      NothingWritten(v.memory, v.rows);
    } else {
      var n, ks := |log| - 1, v.memory.order;
      var init := log[..n];
      FreeBefore(v.rows, log);
      FitsAreTried(v, init);
      var u := AfterWrites(v, ks, init);
      NextIsKept(v.memory, v.rows, init, u.memory, u.rows);
      ProgressUnpacked(v.memory, v.rows, init, u.memory, u.rows);
      WriteDone(v.memory, u, ks[n], log[n]);
      StepProgress(v.memory, v.rows, init, u.memory, u.rows, log[n],
                   AfterWrite(u, ks[n], log[n]).memory, AfterWrite(u, ks[n], log[n]).rows);
      assert init + [log[n]] == log;
    }
  }

  lemma ProgressUnpacked(m0: Memory, rows0: Rows, log: seq<RowWrite>, m: Memory, rows: Rows)
    requires Progress(m0, rows0, log, m, rows)
    ensures WellFormed(m0) && WellFormed(m) && rows == Applied(rows0, log) && Free(rows0, log)
    ensures forall i | 0 <= i < |log| :: m0.order[i] in m0.tracked && Fits(m0, m0.order[i], log[i])
  {}

  lemma FreeBefore(rows: Rows, log: seq<RowWrite>)
    requires log != [] && Free(rows, log)
    ensures Free(rows, log[..|log| - 1])
    ensures log[|log| - 1].Inserts? ==> log[|log| - 1].id !in Applied(rows, log[..|log| - 1])
  {
    var init := log[..|log| - 1];
    forall i | 0 <= i < |init| && init[i].Inserts?
      ensures init[i].id !in Applied(rows, init[..i])
    {
      assert init[..i] == log[..i];
    }
  }

  lemma UpdateIsAfter(v: World, k: Ref)
    requires WellFormed(v.memory) && k in v.memory.tracked && v.memory.tracked[k].status == Managed
    ensures Fits(v.memory, k, UpdateOf(v.memory, k))
    ensures AfterWrite(v, k, UpdateOf(v.memory, k))
         == World(Updated(v.memory, k), v.identities, Apply(v.rows, UpdateOf(v.memory, k)))
  {}

  lemma DeleteIsAfter(v: World, k: Ref)
    requires WellFormed(v.memory) && k in v.memory.tracked && v.memory.tracked[k].status == Removed
    ensures Fits(v.memory, k, Deletes(Id(v.memory, k)))
    ensures AfterWrite(v, k, Deletes(Id(v.memory, k)))
         == World(Deleted(v.memory, k), v.identities - {Id(v.memory, k)}, v.rows - {Id(v.memory, k)})
  {}

  lemma NextIsTracked(m0: Memory, m: Memory, k: Ref)
    requires Kept(m0, m, k)
    ensures k in m0.tracked && k in m.tracked && (Unchanged(m0, k) <==> Unchanged(m, k))
  {}

  /** The end of the loop, one way or the other. */
  lemma TriedAndLost(v: World, log: seq<RowWrite>, lost: RowWrite)
    requires |log| <= |v.memory.order|
    requires var u := AfterWrites(v, v.memory.order, log); Progress(v.memory, v.rows, log, u.memory, u.rows)
    requires lost != Skips ==>
               var u := AfterWrites(v, v.memory.order, log);
               && |log| < |v.memory.order| && v.memory.order[|log|] in u.memory.tracked && WellFormed(u.memory)
               && MayBeLost(u.memory, u.rows, v.memory.order[|log|], lost)
    ensures Tried(v, log, lost)
    ensures AfterFlush(v, log, lost)
         == var u := AfterWrites(v, v.memory.order, log); u.(rows := Apply(u.rows, lost))
    ensures lost == Skips ==> AfterFlush(v, log, lost) == AfterWrites(v, v.memory.order, log)
  {}

  lemma CompleteIsFlushed(v: World, log: seq<RowWrite>)
    requires Tried(v, log, Skips) && |log| == |v.memory.order|
    ensures AfterFlush(v, log, Skips) == AfterWrites(v, v.memory.order, log) && WellFormed(v.memory)
    ensures var u := AfterFlush(v, log, Skips); Flushed(v.memory, v.rows, log, u.memory, u.rows)
  {
    hide Progress;
    var u := AfterWrites(v, v.memory.order, log);
    ProgressUnpacked(v.memory, v.rows, log, u.memory, u.rows);
  }

  /** A flush would send nothing for `k`. */
  ghost predicate Unchanged(m: Memory, k: Ref) {
    k in m.tracked && k in m.objects &&
      (m.tracked[k].status == Detached
       || (m.tracked[k].status == Managed && Changed(m.tracked[k], m.objects[k].columns) == map[]))
  }

  lemma DoneIsUnchanged(m0: Memory, m: Memory, k: Ref, w: RowWrite)
    requires WellFormed(m0) && k in m0.tracked && Fits(m0, k, w) && Done(m0, m, k, w)
    ensures k in m.tracked ==> Unchanged(m, k)
  {
    if k in m.tracked {
      if !w.Skips? { assert Changed(m.tracked[k], m.objects[k].columns).Keys == {}; }
    }
  }

  /** After a flush, whatever was tracked, none of it is new or removed, and another flush would send nothing. */
  lemma FlushedIsUnchanged(m0: Memory, rows0: Rows, log: seq<RowWrite>, m: Memory, rows: Rows)
    requires Flushed(m0, rows0, log, m, rows)
    ensures forall k | k in m.tracked :: Unchanged(m, k)
  {
    hide Applied, Free, Fits, Done, Unchanged;
    forall k | k in m.tracked
      ensures Unchanged(m, k)
    {
      assert k in m0.order;
      var i :| 0 <= i < |m0.order| && m0.order[i] == k;
      DoneIsUnchanged(m0, m, k, log[i]);
    }
  }

  // ----- which entity is found for a row

  /** The statement says anew which entity is found under `id`. */
  ghost predicate Speaks(m: Memory, k: Ref, w: RowWrite, id: RowId)
    requires k in m.tracked
  {
    && (w.Inserts? || w.Deletes?) && w.id == id
    && (w.Inserts? ==> HasIdentity(m.tracked[k], Entity(w.columns, [])))
  }

  /** None of the statements from `from` on does. */
  ghost predicate SilentFrom(m: Memory, log: seq<RowWrite>, from: nat, id: RowId)
    requires WellFormed(m) && |log| <= |m.order|
  {
    forall i | from <= i < |log| :: !Speaks(m, m.order[i], log[i], id)
  }

  /** One more statement. */
  lemma IdentityAfterOne(v: World, m0: Memory, k: Ref, w: RowWrite, id: RowId)
    requires WellFormed(v.memory) && Kept(m0, v.memory, k) && Fits(v.memory, k, w)
    ensures var now := AfterWrite(v, k, w).identities;
            if Speaks(m0, k, w, id) then (id in now <==> w.Inserts?) && (w.Inserts? ==> now[id] == k)
            else (id in now <==> id in v.identities) && (id in now ==> now[id] == v.identities[id])
  {
    hide Changed;
    if w.Inserts? {
      var m := Inserted(v.memory, k, w.id.key);
      assert m.objects[k].columns == w.columns;
      assert m.tracked[k].table == w.id.table && w.columns[m.tracked[k].primaryKey] == w.id.key;
    }
  }

  /** The last statement that speaks of a row says which entity is found there. */
  lemma {:induction false} IdentityAfter(v: World, log: seq<RowWrite>, p: nat, id: RowId)
    requires Tried(v, log, Skips) && WellFormed(v.memory)
    requires p < |log| && Speaks(v.memory, v.memory.order[p], log[p], id) && SilentFrom(v.memory, log, p + 1, id)
    ensures var now := AfterWrites(v, v.memory.order, log).identities;
            (id in now <==> log[p].Inserts?) && (id in now ==> now[id] == v.memory.order[p])
  {
    hide Progress, AfterWrite, Speaks;
    var n, ks := |log| - 1, v.memory.order;
    TriedBefore(v, log);
    IdentityAfterOne(AfterWrites(v, ks, log[..n]), v.memory, ks[n], log[n], id);
    if p < n {
      assert forall i | p + 1 <= i < n :: log[..n][i] == log[i];
      IdentityAfter(v, log[..n], p, id);
    } else {
      SpeaksIsInsert(v.memory, ks[n], log[n], id);
    }
  }

  lemma SpeaksIsInsert(m: Memory, k: Ref, w: RowWrite, id: RowId)
    requires k in m.tracked && Speaks(m, k, w, id)
    ensures w.Inserts? || w.Deletes?
  {}

  /** Where none speaks, the entity found there before is. */
  lemma {:induction false} IdentityStays(v: World, log: seq<RowWrite>, id: RowId)
    requires Tried(v, log, Skips) && WellFormed(v.memory) && SilentFrom(v.memory, log, 0, id)
    ensures var now := AfterWrites(v, v.memory.order, log).identities;
            (id in now <==> id in v.identities) && (id in now ==> now[id] == v.identities[id])
  {
    hide Progress, AfterWrite, Speaks;
    if log != [] {
      var n, ks := |log| - 1, v.memory.order;
      TriedBefore(v, log);
      IdentityAfterOne(AfterWrites(v, ks, log[..n]), v.memory, ks[n], log[n], id);
      assert forall i | 0 <= i < n :: log[..n][i] == log[i];
      IdentityStays(v, log[..n], id);
    }
  }

  lemma TriedBefore(v: World, log: seq<RowWrite>)
    requires Tried(v, log, Skips) && log != []
    ensures var n, ks := |log| - 1, v.memory.order;
            var u := AfterWrites(v, ks, log[..n]);
            && Tried(v, log[..n], Skips) && WellFormed(v.memory) && WellFormed(u.memory)
            && Kept(v.memory, u.memory, ks[n]) && Fits(v.memory, ks[n], log[n])
  {
    hide Progress, AfterWrite, Fits, Free, Applied, WellFormed, Kept;
    var n, ks := |log| - 1, v.memory.order;
    var end := AfterWrites(v, ks, log);
    ProgressUnpacked(v.memory, v.rows, log, end.memory, end.rows);
    FreeBefore(v.rows, log);
    assert forall i | 0 <= i < n :: log[..n][i] == log[i];
    FitsAreTried(v, log[..n]);
    var u := AfterWrites(v, ks, log[..n]);
    NextIsKept(v.memory, v.rows, log[..n], u.memory, u.rows);
    ProgressUnpacked(v.memory, v.rows, log[..n], u.memory, u.rows);
  }

  /** A removed entity is found afterwards only where it was found before under another key than its own. An
      inserted one is found under its key, if that is one to be found by, unless a later statement speaks of it. */
  ghost predicate FoundRightly(m0: Memory, was: map<RowId, Ref>, log: seq<RowWrite>, now: map<RowId, Ref>)
    requires WellFormed(m0) && |log| == |m0.order|
  {
    && (forall id | id in now && now[id] in m0.tracked && m0.tracked[now[id]].status == Removed ::
          id in was && was[id] == now[id] && id != Id(m0, now[id]))
    && (forall p | 0 <= p < |log| && log[p].Inserts? && Speaks(m0, m0.order[p], log[p], log[p].id)
                   && SilentFrom(m0, log, p + 1, log[p].id) ::
          log[p].id in now && now[log[p].id] == m0.order[p])
  }

  lemma {:induction false} LastToSpeak(m: Memory, log: seq<RowWrite>, from: nat, id: RowId) returns (p: nat)
    requires WellFormed(m) && |log| <= |m.order| && !SilentFrom(m, log, from, id)
    ensures from <= p < |log| && Speaks(m, m.order[p], log[p], id) && SilentFrom(m, log, p + 1, id)
    decreases |log| - from
  {
    hide Speaks, WellFormed;
    if SilentFrom(m, log, from + 1, id) { p := from; } else { p := LastToSpeak(m, log, from + 1, id); }
  }

  lemma FlushFindsRightly(v: World, log: seq<RowWrite>)
    requires Tried(v, log, Skips) && WellFormed(v.memory) && |log| == |v.memory.order|
    ensures FoundRightly(v.memory, v.identities, log, AfterWrites(v, v.memory.order, log).identities)
  {
    hide Progress, AfterWrites, Speaks, Fits;
    var m0, now := v.memory, AfterWrites(v, v.memory.order, log).identities;
    var end := AfterWrites(v, v.memory.order, log);
    ProgressUnpacked(m0, v.rows, log, end.memory, end.rows);
    forall id | id in now && now[id] in m0.tracked && m0.tracked[now[id]].status == Removed
      ensures id in v.identities && v.identities[id] == now[id] && id != Id(m0, now[id])
    {
      if SilentFrom(m0, log, 0, id) {
        IdentityStays(v, log, id);
        RemovedSpeaks(m0, log, now[id]);
      } else {
        var p := LastToSpeak(m0, log, 0, id);
        IdentityAfter(v, log, p, id);
        InsertedIsNew(m0, m0.order[p], log[p]);
      }
    }
    forall p | 0 <= p < |log| && log[p].Inserts? && Speaks(m0, m0.order[p], log[p], log[p].id)
               && SilentFrom(m0, log, p + 1, log[p].id)
      ensures log[p].id in now && now[log[p].id] == m0.order[p]
    {
      IdentityAfter(v, log, p, log[p].id);
    }
  }

  lemma InsertedIsNew(m: Memory, k: Ref, w: RowWrite)
    requires WellFormed(m) && k in m.tracked && Fits(m, k, w)
    ensures w.Inserts? <==> m.tracked[k].status == New
  {}

  lemma RemovedSpeaks(m: Memory, log: seq<RowWrite>, k: Ref)
    requires WellFormed(m) && |log| == |m.order| && k in m.tracked && m.tracked[k].status == Removed
    requires forall i | 0 <= i < |log| :: Fits(m, m.order[i], log[i])
    ensures !SilentFrom(m, log, 0, Id(m, k))
  {
    assert k in m.order;
    var i :| 0 <= i < |m.order| && m.order[i] == k;
    assert Fits(m, k, log[i]) && Speaks(m, k, log[i], Id(m, k));
  }
}
