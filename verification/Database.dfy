/** The database behind an executor: the rows that are committed, the rows that the connection
    sees, and its savepoints. Any call may fail, and then changes nothing. */
module Database {
  import opened Wrappers
  import opened Values

  datatype RowId = RowId(table: string, key: Value)

  type Rows = map<RowId, Columns>

  datatype Savepoint = Savepoint(name: nat, rows: Rows)

  class Executor {
    var committed: Rows
    var open: bool
    /** What the connection sees. Outside a transaction every statement commits by itself. */
    var working: Rows
    var savepoints: seq<Savepoint>
    /** How many INSERT, UPDATE and DELETE statements were sent. */
    var statements: nat
    /** How many calls were refused, other than those that take something back. */
    var refusals: nat
    /** How many calls were refused that were to take something back. */
    var stuck: nat

    ghost predicate Valid()
      reads this
    {
      !open ==> working == committed && savepoints == []
    }

    constructor (rows: Rows)
      ensures Valid() && !open && committed == rows
    {
      committed, working, open, savepoints, statements := rows, rows, false, [], 0;
      refusals, stuck := 0, 0;
    }

    method Begin() returns (ok: bool)
      requires Valid()
      modifies this
      ensures Valid() && committed == old(committed) && working == old(working) && statements == old(statements)
      ensures ok ==> !old(open) && open && savepoints == []
      ensures !ok ==> open == old(open) && savepoints == old(savepoints)
      ensures refusals == old(refusals) + (if ok then 0 else 1) && stuck == old(stuck)
    {
      ok := *;
      ok := ok && !open;
      if ok { open := true; } else { refusals := refusals + 1; }
    }

    method Commit() returns (ok: bool)
      requires Valid()
      modifies this
      ensures Valid() && working == old(working) && statements == old(statements)
      ensures ok ==> old(open) && !open && committed == old(working)
      ensures !ok ==> open == old(open) && committed == old(committed) && savepoints == old(savepoints)
      ensures refusals == old(refusals) + (if ok then 0 else 1) && stuck == old(stuck)
    {
      ok := *;
      ok := ok && open;
      if ok { committed, open, savepoints := working, false, []; } else { refusals := refusals + 1; }
    }

    method Rollback() returns (ok: bool)
      requires Valid()
      modifies this
      ensures Valid() && committed == old(committed) && statements == old(statements)
      ensures ok ==> !open
      ensures !ok ==> open == old(open) && working == old(working) && savepoints == old(savepoints)
      ensures stuck == old(stuck) + (if ok then 0 else 1) && refusals == old(refusals)
    {
      ok := *;
      ok := ok && open;
      if ok { working, open, savepoints := committed, false, []; } else { stuck := stuck + 1; }
    }

    method SetSavepoint(name: nat) returns (ok: bool)
      requires Valid()
      modifies this
      ensures Valid() && committed == old(committed) && working == old(working)
      ensures open == old(open) && statements == old(statements)
      ensures ok ==> open && savepoints == old(savepoints) + [Savepoint(name, working)]
      ensures !ok ==> savepoints == old(savepoints)
      ensures refusals == old(refusals) + (if ok then 0 else 1) && stuck == old(stuck)
    {
      ok := *;
      ok := ok && open;
      if ok { savepoints := savepoints + [Savepoint(name, working)]; } else { refusals := refusals + 1; }
    }

    /** Forgets the latest savepoint of that name, and all that were set after it. */
    method Release(name: nat) returns (ok: bool)
      requires Valid()
      modifies this
      ensures Valid() && committed == old(committed) && working == old(working)
      ensures open == old(open) && statements == old(statements)
      ensures ok ==> (exists i :: IsLatest(old(savepoints), name, i) && savepoints == old(savepoints)[..i])
      ensures !ok ==> savepoints == old(savepoints)
      ensures refusals == old(refusals) + (if ok then 0 else 1) && stuck == old(stuck)
    {
      var i := Latest(savepoints, name);
      ok := *;
      ok := ok && i >= 0;
      if ok { savepoints := savepoints[..i]; } else { refusals := refusals + 1; }
    }

    /** Back to the latest savepoint of that name, which stays. */
    method RollbackTo(name: nat) returns (ok: bool)
      requires Valid()
      modifies this
      ensures Valid() && committed == old(committed) && open == old(open) && statements == old(statements)
      ensures ok ==> (exists i :: IsLatest(old(savepoints), name, i)
                                  && savepoints == old(savepoints)[..i + 1] && working == old(savepoints)[i].rows)
      ensures !ok ==> savepoints == old(savepoints) && working == old(working)
      ensures stuck == old(stuck) + (if ok then 0 else 1) && refusals == old(refusals)
    {
      var i := Latest(savepoints, name);
      ok := *;
      ok := ok && i >= 0;
      if ok { working, savepoints := savepoints[i].rows, savepoints[..i + 1]; } else { stuck := stuck + 1; }
    }

    method Write(rows: Rows)
      requires Valid()
      modifies this
      ensures Valid() && working == rows && open == old(open) && savepoints == old(savepoints)
      ensures committed == if open then old(committed) else rows
      ensures statements == old(statements)
      ensures refusals == old(refusals) && stuck == old(stuck)
    {
      working := rows;
      if !open { committed := rows; }
    }

    /** INSERT of the values into a table, whose key the database generates if they have none. The second
        result is missing where the statement returned no generated key; the row is there all the same, under
        the key `made`. */
    method Insert(table: string, primaryKey: string, values: Columns, generate: bool)
      returns (ok: bool, key: Option<Value>, ghost made: Value)
      requires Valid() && (!generate ==> primaryKey in values)
      modifies this
      ensures Valid() && open == old(open) && savepoints == old(savepoints)
      ensures open ==> committed == old(committed)
      ensures refusals == old(refusals) + (if ok && key.Some? then 0 else 1) && stuck == old(stuck)
      ensures !ok ==> working == old(working)
      ensures ok ==>
                && RowId(table, made) !in old(working)
                && (if generate then !IsEmptyGenerated(made) else made == values[primaryKey])
                && working == old(working)[RowId(table, made) := values[primaryKey := made]]
                && (key.Some? ==> key.value == made) && (key.None? ==> generate)
    {
      statements := statements + 1;
      ok, made := *, Null;
      key := None;
      var k: Value;
      if generate { k := *; } else { k := values[primaryKey]; }
      if !ok || RowId(table, k) in working || (generate && IsEmptyGenerated(k)) {
        refusals := refusals + 1;
        return false, None, Null;
      }
      Write(working[RowId(table, k) := values[primaryKey := k]]);
      made := k;
      var returned: bool := *;
      if !generate || returned { key := Some(k); } else { refusals := refusals + 1; }
    }

    /** UPDATE ... SET assignments WHERE primary key = key */
    method Update(id: RowId, assignments: Columns) returns (ok: bool)
      requires Valid()
      modifies this
      ensures Valid() && open == old(open) && savepoints == old(savepoints)
      ensures open ==> committed == old(committed)
      ensures working == if ok && id in old(working) then old(working)[id := old(working)[id] + assignments]
                         else old(working)
      ensures refusals == old(refusals) + (if ok then 0 else 1) && stuck == old(stuck)
    {
      statements := statements + 1;
      ok := *;
      if !ok { refusals := refusals + 1; }
      if ok && id in working { Write(working[id := working[id] + assignments]); }
    }

    /** DELETE ... WHERE primary key = key */
    method Delete(id: RowId) returns (ok: bool)
      requires Valid()
      modifies this
      ensures Valid() && open == old(open) && savepoints == old(savepoints)
      ensures open ==> committed == old(committed)
      ensures working == if ok then old(working) - {id} else old(working)
      ensures refusals == old(refusals) + (if ok then 0 else 1) && stuck == old(stuck)
    {
      statements := statements + 1;
      ok := *;
      if ok { Write(working - {id}); } else { refusals := refusals + 1; }
    }
  }

  predicate IsLatest(saves: seq<Savepoint>, name: nat, i: int) {
    0 <= i < |saves| && saves[i].name == name && forall j | i < j < |saves| :: saves[j].name != name
  }

  method Latest(saves: seq<Savepoint>, name: nat) returns (i: int)
    ensures i >= 0 ==> IsLatest(saves, name, i)
    ensures i < 0 ==> forall j | 0 <= j < |saves| :: saves[j].name != name
  {
    i := |saves| - 1;
    while i >= 0 && saves[i].name != name
      invariant -1 <= i < |saves|
      invariant forall j | i < j < |saves| :: saves[j].name != name
    {
      i := i - 1;
    }
  }
}
