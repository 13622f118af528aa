/** Executors that borrow connections from a shared pool. What an executor does to the pool it does in single
    actions; between any two of them the others may act. Every action leaves the connections of the others
    alone, which is all that an executor counts on. */
module PooledExecutors {
  import opened Wrappers
  import ResourcePools

  /** A connection is a resource of the pool. */
  type Conn = ResourcePools.Res

  /** Where connections are, and those on which a transaction is open. */
  datatype Stock = Stock(idle: set<Conn>, leased: set<Conn>, gone: set<Conn>, open: set<Conn>)

  /** A connection is in at most one place, and an idle one has no transaction open. */
  predicate Sound(s: Stock) {
    && s.idle !! s.leased && s.idle !! s.gone && s.leased !! s.gone
    && s.open <= s.leased + s.gone
  }

  /** What is sent on a connection. */
  datatype Statement =
    | Query(sql: string)
    | BeginWork
    | CommitWork
    | RollbackWork
    | SavepointWork(verb: Verb, name: string)

  datatype Verb = Set | Release | RollbackTo

  /** What is asked of the pool or of a connection, with the answer. */
  datatype Act =
    | Lease(got: Option<Conn>)
    | Send(on: Conn, what: Statement, ok: bool)
    | Return(c: Conn)
    | Remove(c: Conn)

  // ----- what an executor counts on when it turns to the pool

  /** The connections `mine` are left alone. */
  predicate Spares(was: Stock, mine: set<Conn>, now: Stock) {
    mine <= now.leased && forall c | c in mine :: c in now.open <==> c in was.open
  }

  /** A connection is leased that nobody else holds and on which no transaction is open, or none is. */
  predicate Leases(was: Stock, c: Option<Conn>, now: Stock) {
    && now.open == was.open && now.gone == was.gone
    && match c
       case Some(c) => c !in was.leased && now.leased == was.leased + {c} && c !in now.open
       case None => now.leased == was.leased && now.idle == was.idle
  }

  /** A connection is given back; the pool keeps it or does away with it. */
  predicate Returns(was: Stock, c: Conn, now: Stock) {
    now.leased == was.leased - {c} && now.open == was.open
  }

  predicate Removes(was: Stock, c: Conn, now: Stock) {
    Returns(was, c, now) && now.idle == was.idle
  }

  class ConnectionPool {
    var idle: set<Conn>
    var leased: set<Conn>
    var gone: set<Conn>
    /** The connections on which a transaction is open. */
    var open: set<Conn>
    /** What the modelled executors have asked, in order. */
    ghost var log: seq<Act>

    function State(): Stock
      reads this
    {
      Stock(idle, leased, gone, open)
    }

    ghost predicate Valid()
      reads this
    {
      Sound(State())
    }

    /** Other executors at work. */
    method Interfere(mine: set<Conn>)
      requires Valid() && mine <= leased
      modifies this`idle, this`leased, this`gone, this`open
      ensures Valid() && Spares(old(State()), mine, State())
    {
      var s: Stock := *;
      if Sound(s) && Spares(State(), mine, s) {
        idle, leased, gone, open := s.idle, s.leased, s.gone, s.open;
      }
    }

    /** A connection that nobody else holds, or an error. */
    method Acquire() returns (c: Option<Conn>)
      requires Valid()
      modifies this
      ensures Valid() && Leases(old(State()), c, State()) && log == old(log) + [Lease(c)]
    {
      var k: Conn := *;
      c := None;
      if k !in leased && k !in gone {
        idle := idle - {k};
        leased := leased + {k};
        c := Some(k);
      }
      log := log + [Lease(c)];
    }

    /** Back to the pool, which keeps it or, once destroyed, does away with it. */
    method Release(c: Conn)
      requires Valid() && c in leased && c !in open
      modifies this
      ensures Valid() && Returns(old(State()), c, State()) && log == old(log) + [Return(c)]
    {
      var keep: bool := *;
      leased := leased - {c};
      if keep { idle := idle + {c}; } else { gone := gone + {c}; }
      log := log + [Return(c)];
    }

    method Destroy(c: Conn)
      requires Valid() && c in leased
      modifies this
      ensures Valid() && Removes(old(State()), c, State()) && log == old(log) + [Remove(c)]
    {
      leased := leased - {c};
      gone := gone + {c};
      log := log + [Remove(c)];
    }

    // ----- statements on a connection; one that fails may leave it in any state

    method Execute(c: Conn, what: Statement) returns (ok: bool)
      requires Valid() && c in leased && (what.Query? || what.SavepointWork?)
      modifies this`open, this`log
      ensures Valid() && (forall x | x != c :: x in open <==> x in old(open)) && open <= old(open)
      ensures log == old(log) + [Send(c, what, ok)]
    {
      var aborted: bool := *;
      ok := *;
      if !ok && aborted { open := open - {c}; }
      log := log + [Send(c, what, ok)];
    }

    method Begin(c: Conn) returns (ok: bool)
      requires Valid() && c in leased
      modifies this`open, this`log
      ensures Valid() && (forall x | x != c :: x in open <==> x in old(open)) && (ok ==> c in open)
      ensures log == old(log) + [Send(c, BeginWork, ok)]
    {
      var opened': bool := *;
      ok := *;
      if ok || opened' { open := open + {c}; }
      log := log + [Send(c, BeginWork, ok)];
    }

    method End(c: Conn, what: Statement) returns (ok: bool)
      requires Valid() && c in leased && (what.CommitWork? || what.RollbackWork?)
      modifies this`open, this`log
      ensures Valid() && (forall x | x != c :: x in open <==> x in old(open)) && (ok ==> c !in open)
              && open <= old(open)
      ensures log == old(log) + [Send(c, what, ok)]
    {
      var closed: bool := *;
      ok := *;
      if ok || closed { open := open - {c}; }
      log := log + [Send(c, what, ok)];
    }
  }

  // ----- what an executor does

  datatype Call =
    | Execute(sql: string)
    | Begin
    | Commit
    | Rollback
    | Savepoint(verb: Verb, name: string)
    | Dispose

  /** How an executor was set up. */
  datatype Mode = Mode(sticky: bool, transactions: bool, savepoints: bool)

  /** What an executor is about to do to the pool. */
  datatype Doing =
    | Resting
    | Leasing(call: Call)                 // get a lease, and then the call
    | Running(call: Call)                 // send the statement of the call on the lease
    | Borrowing(sql: string)              // get a connection for one statement
    | Borrowed(sql: string, c: Conn)      // send the statement on it
    | Returning(c: Conn)                  // give it back
    | Destroying(c: Conn)                 // do away with it

  datatype Standing = Standing(lease: Option<Conn>, active: bool, doing: Doing)

  function StatementOf(call: Call): Statement {
    match call
    case Execute(sql) => Query(sql)
    case Begin => BeginWork
    case Commit => CommitWork
    case Savepoint(verb, name) => SavepointWork(verb, name)
    case Rollback => RollbackWork
    case Dispose => RollbackWork
  }

  /** The connection of the transaction that is running. */
  function TransactionOf(s: Standing): Option<Conn> { if s.active then s.lease else None }

  /** What a call makes of an executor that rests, before it touches the pool. */
  ghost predicate Starts(m: Mode, call: Call, was: Standing, now: Standing) {
    && now.active == was.active
    && now.lease == (if call.Dispose? && !was.active then None else was.lease)
    && now.doing ==
         match call
         case Execute(sql) =>
           if was.lease.Some? then Running(call) else if m.sticky then Leasing(call) else Borrowing(sql)
         case Begin =>
           if !m.transactions || was.active then Resting
           else if was.lease.Some? then Running(call) else Leasing(call)
         case Savepoint(_, _) => if !m.savepoints || !was.active then Resting else Running(call)
         case Dispose =>
           if was.lease.None? then Resting else if was.active then Running(call) else Returning(was.lease.value)
         case _ => if !m.transactions || !was.active then Resting else Running(call)
  }

  /** What one action is, and what it makes of the executor. */
  ghost predicate Acts(was: Standing, act: Act, ok: bool, now: Standing) {
    match was.doing
    case Resting => false
    case Leasing(call) =>
      && act == Lease(now.lease) && ok == now.lease.Some? && now.active == was.active
      && now.doing == (if ok then Running(call) else Resting)
    case Running(call) =>
      && was.lease.Some? && act == Send(was.lease.value, StatementOf(call), ok)
      && (match call
          case Execute(_) => now == was.(doing := Resting)
          case Savepoint(_, _) => now == was.(doing := Resting)
          case Begin =>
            now == if ok then Standing(was.lease, true, Resting)
                   else Standing(None, false, Destroying(was.lease.value))
          case _ =>
            now == Standing(None, false, if ok then Returning(was.lease.value) else Destroying(was.lease.value)))
    case Borrowing(sql) =>
      && act.Lease? && ok == act.got.Some?
      && now == was.(doing := if ok then Borrowed(sql, act.got.value) else Resting)
    case Borrowed(sql, c) => act == Send(c, Query(sql), ok) && now == was.(doing := Returning(c))
    case Returning(c) => act == Return(c) && ok && now == was.(doing := Resting)
    case Destroying(c) => act == Remove(c) && ok && now == was.(doing := Resting)
  }

  /** What is said of the executor itself. */
  ghost predicate Steady(m: Mode, s: Standing) {
    && (s.active ==> s.lease.Some? && m.transactions)
    && (s.doing.Leasing? ==>
          s.lease.None? && !s.active && (s.doing.call.Execute? || (s.doing.call.Begin? && m.transactions)))
    && (s.doing.Running? ==>
          && s.lease.Some? && (s.doing.call.Begin? ==> !s.active && m.transactions)
          && (!s.doing.call.Begin? && !s.doing.call.Execute? ==> s.active))
    && (s.doing.Borrowing? || s.doing.Borrowed? ==> s.lease.None?)
    && ((s.doing.Returning? || s.doing.Destroying?) && s.lease.Some? ==> s.lease.value != s.doing.c)
  }

  // ----- what a whole call asks of the pool, and what it leaves

  /** Runs on `c`: the lease, a new lease that is kept, or a connection borrowed and given back. */
  ghost predicate RunsOn(m: Mode, sql: string, c: Conn, was: Standing, said: seq<Act>, ok: bool, now: Standing) {
    if was.lease.Some? then
      c == was.lease.value && said == [Send(c, Query(sql), ok)] && now == was
    else if m.sticky then
      said == [Lease(Some(c)), Send(c, Query(sql), ok)] && now == was.(lease := Some(c))
    else
      said == [Lease(Some(c)), Send(c, Query(sql), ok), Return(c)] && now == was
  }

  /** Begins on `c`: the lease, or a new one. Where that fails `c` is destroyed. */
  ghost predicate BeginsOn(c: Conn, was: Standing, said: seq<Act>, ok: bool, now: Standing) {
    && (was.lease.Some? ==> c == was.lease.value)
    && said == (if was.lease.Some? then [] else [Lease(Some(c))]) + [Send(c, BeginWork, ok)]
               + (if ok then [] else [Remove(c)])
    && now == if ok then Standing(Some(c), true, Resting) else Standing(None, false, Resting)
  }

  /** Ends the transaction: the connection goes back, or is destroyed. */
  ghost predicate EndsBy(what: Statement, was: Standing, said: seq<Act>, ok: bool, now: Standing) {
    && was.lease.Some? && now == Standing(None, false, Resting)
    && said == [Send(was.lease.value, what, ok), if ok then Return(was.lease.value) else Remove(was.lease.value)]
  }

  ghost predicate NotDone(was: Standing, said: seq<Act>, now: Standing) { said == [] && now == was }

  ghost predicate Answered(m: Mode, call: Call, was: Standing, said: seq<Act>, ok: bool, now: Standing) {
    match call
    case Execute(sql) =>
      || (exists c :: RunsOn(m, sql, c, was, said, ok, now))
      || (was.lease.None? && said == [Lease(None)] && !ok && now == was)
    case Begin =>
      if !m.transactions || was.active then NotDone(was, said, now) && !ok
      else
        || (exists c :: BeginsOn(c, was, said, ok, now))
        || (was.lease.None? && said == [Lease(None)] && !ok && now == was)
    case Commit =>
      if !m.transactions || !was.active then NotDone(was, said, now) && !ok
      else EndsBy(CommitWork, was, said, ok, now)
    case Rollback =>
      if !m.transactions then NotDone(was, said, now) && !ok
      else if !was.active then NotDone(was, said, now) && ok
      else EndsBy(RollbackWork, was, said, ok, now)
    case Savepoint(verb, name) =>
      if !m.savepoints || !was.active then NotDone(was, said, now) && !ok
      else was.lease.Some? && said == [Send(was.lease.value, SavepointWork(verb, name), ok)] && now == was
    case Dispose =>
      if was.lease.None? then NotDone(was, said, now)
      else if was.active then EndsBy(RollbackWork, was, said, ok, now)
      else said == [Return(was.lease.value)] && now == Standing(None, false, Resting)
  }

  class PooledExecutor {
    const pool: ConnectionPool
    const mode: Mode
    var lease: Option<Conn>
    var active: bool
    var doing: Doing

    ghost function Stands(): Standing
      reads this
    {
      Standing(lease, active, doing)
    }

    /** The connections that this executor has out. */
    function Holds(): set<Conn>
      reads this
    {
      (if lease.Some? then {lease.value} else {})
      + (if doing.Borrowed? || doing.Returning? || doing.Destroying? then {doing.c} else {})
    }

    ghost predicate Valid()
      reads this, pool
    {
      && pool.Valid() && Holds() <= pool.leased && Steady(mode, Stands())
      && (!active && lease.Some? ==> lease.value !in pool.open)
      && (doing.Borrowed? || doing.Returning? ==> doing.c !in pool.open)
    }

    constructor (pool: ConnectionPool, mode: Mode)
      requires pool.Valid()
      ensures Valid() && this.pool == pool && this.mode == mode && Stands() == Standing(None, false, Resting)
    {
      this.pool, this.mode := pool, mode;
      lease, active, doing := None, false, Resting;
    }

    /** What a call finds out before it touches the pool; false where it is an error, or has nothing to do. */
    method Start(call: Call) returns (ok: bool)
      requires Valid() && doing == Resting
      modifies this`doing, this`lease
      ensures Valid() && Holds() == old(Holds())
      ensures Starts(mode, call, old(Stands()), Stands())
      ensures ok <==> doing != Resting || (call.Rollback? && mode.transactions)
    {
      match call {
        case Execute(sql) =>
          doing := if lease.Some? then Running(call) else if mode.sticky then Leasing(call) else Borrowing(sql);
        case Begin =>
          if mode.transactions && !active { doing := if lease.Some? then Running(call) else Leasing(call); }
        case Savepoint(_, _) => if mode.savepoints && active { doing := Running(call); }
        case Dispose =>
          if active {
            doing := Running(call);
          } else if lease.Some? {
            doing, lease := Returning(lease.value), None;
          }
        case _ => if mode.transactions && active { doing := Running(call); }
      }
      ok := doing != Resting || (call.Rollback? && mode.transactions);
    }

    /** One action on the pool. */
    method Step() returns (ok: bool, ghost act: Act)
      requires Valid() && doing != Resting
      modifies this, pool
      ensures Valid() && LeavesOthers(old(Holds()), old(pool.leased), old(pool.open))
      ensures Holds() - old(Holds()) !! old(pool.leased)
      ensures Acts(old(Stands()), act, ok, Stands()) && pool.log == old(pool.log) + [act]
    {
      match doing {
        case Leasing(call) =>
          lease := pool.Acquire();
          ok := lease.Some?;
          doing := if ok then Running(call) else Resting;
        case Running(call) =>
          var c := lease.value;
          match call {
            case Begin =>
              ok := pool.Begin(c);
              if ok {
                active, doing := true, Resting;
              } else {
                lease, doing := None, Destroying(c);
              }
            case Commit =>
              ok := pool.End(c, CommitWork);
              active, lease, doing := false, None, if ok then Returning(c) else Destroying(c);
            case Rollback =>
              ok := pool.End(c, RollbackWork);
              active, lease, doing := false, None, if ok then Returning(c) else Destroying(c);
            case Dispose =>
              ok := pool.End(c, RollbackWork);
              active, lease, doing := false, None, if ok then Returning(c) else Destroying(c);
            case _ =>
              ok := pool.Execute(c, StatementOf(call));
              doing := Resting;
          }
        case Borrowing(sql) =>
          var c := pool.Acquire();
          ok := c.Some?;
          doing := if ok then Borrowed(sql, c.value) else Resting;
        case Borrowed(sql, c) =>
          ok := pool.Execute(c, Query(sql));
          doing := Returning(c);
        case Returning(c) =>
          pool.Release(c);
          ok, doing := true, Resting;
        case Destroying(c) =>
          pool.Destroy(c);
          ok, doing := true, Resting;
      }
      act := pool.log[|pool.log| - 1];
    }

    // ----- whole calls, with the others at work in between

    method Pause()
      requires Valid()
      modifies pool`idle, pool`leased, pool`gone, pool`open
      ensures Valid()
    {
      pool.Interfere(Holds());
    }

    /** What the pool was asked since it had been asked `before`. */
    ghost function Since(before: seq<Act>): seq<Act>
      requires before <= pool.log
      reads pool
    {
      pool.log[|before|..]
    }

    /** Runs on the lease, or on a connection borrowed for this one statement. */
    method Execute(sql: string) returns (ok: bool)
      requires Valid() && doing == Resting
      modifies this, pool
      ensures Valid() && doing == Resting && old(pool.log) <= pool.log
      ensures Answered(mode, Call.Execute(sql), old(Stands()), Since(old(pool.log)), ok, Stands())
    {
      hide LeavesOthers, BeginsOn, EndsBy;
      ghost var act;
      ok := Start(Call.Execute(sql));
      Pause();
      if doing.Leasing? || doing.Borrowing? {
        ok, act := Step();
        if !ok { return; }
        Pause();
      }
      ghost var c := if doing.Running? then lease.value else doing.c;
      ok, act := Step();
      Pause();
      if doing.Returning? { var _, _ := Step(); }
      assert RunsOn(mode, sql, c, old(Stands()), Since(old(pool.log)), ok, Stands());
    }

    /** On an error the connection is destroyed, whatever state it is in. */
    method BeginTransaction() returns (ok: bool)
      requires Valid() && doing == Resting
      modifies this, pool
      ensures Valid() && doing == Resting && old(pool.log) <= pool.log
      ensures Answered(mode, Begin, old(Stands()), Since(old(pool.log)), ok, Stands())
    {
      hide LeavesOthers, RunsOn, EndsBy;
      ghost var act;
      ok := Start(Begin);
      if !ok { return; }
      Pause();
      if doing.Leasing? {
        ok, act := Step();
        if !ok { return; }
        Pause();
      }
      ghost var c := lease.value;
      ok, act := Step();
      Pause();
      if doing.Destroying? { var _, _ := Step(); }
      assert BeginsOn(c, old(Stands()), Since(old(pool.log)), ok, Stands());
    }

    /** Commits; on an error the connection is destroyed, whatever state it is in. */
    method CommitTransaction() returns (ok: bool)
      requires Valid() && doing == Resting
      modifies this, pool
      ensures Valid() && doing == Resting && old(pool.log) <= pool.log
      ensures Answered(mode, Commit, old(Stands()), Since(old(pool.log)), ok, Stands())
    {
      ok := Start(Commit);
      if !ok { return; }
      ok := End();
    }

    /** Rolls back; without a transaction there is nothing to do. */
    method RollbackTransaction() returns (ok: bool)
      requires Valid() && doing == Resting
      modifies this, pool
      ensures Valid() && doing == Resting && old(pool.log) <= pool.log
      ensures Answered(mode, Rollback, old(Stands()), Since(old(pool.log)), ok, Stands())
    {
      ok := Start(Rollback);
      if doing == Resting { return; }
      ok := End();
    }

    method End() returns (ok: bool)
      requires Valid() && doing.Running? && (doing.call.Commit? || doing.call.Rollback? || doing.call.Dispose?)
      modifies this, pool
      ensures Valid() && old(pool.log) <= pool.log
      ensures EndsBy(StatementOf(old(doing).call), old(Stands()), Since(old(pool.log)), ok, Stands())
    {
      ghost var act;
      Pause();
      ok, act := Step();
      Pause();
      var _, _ := Step();
    }

    /** Sets a savepoint, releases one, or rolls back to one: within a transaction only, and on its connection. */
    method SavepointStatement(verb: Verb, name: string) returns (ok: bool)
      requires Valid() && doing == Resting
      modifies this, pool
      ensures Valid() && doing == Resting && old(pool.log) <= pool.log
      ensures Answered(mode, Savepoint(verb, name), old(Stands()), Since(old(pool.log)), ok, Stands())
    {
      ghost var act;
      ok := Start(Savepoint(verb, name));
      if !ok { return; }
      Pause();
      ok, act := Step();
    }

    /** Gives the lease up: to the pool if it can be left without a transaction, else to destruction. */
    method Dispose() returns (ghost ok: bool)
      requires Valid() && doing == Resting
      modifies this, pool
      ensures Valid() && doing == Resting && old(pool.log) <= pool.log
      ensures Answered(mode, Call.Dispose, old(Stands()), Since(old(pool.log)), ok, Stands())
    {
      ok := true;
      var _ := Start(Call.Dispose);
      if doing.Running? {
        ok := End();
      } else if doing.Returning? {
        Pause();
        var _, _ := Step();
      }
    }

    /** Connections that others had out are still out, with their transactions as they were. */
    ghost predicate LeavesOthers(mine: set<Conn>, leased: set<Conn>, open: set<Conn>)
      reads this, pool
    {
      forall c | c in leased && c !in mine :: c in pool.leased && (c in pool.open <==> c in open)
    }
  }

  // ----- histories

  /** Whether a transaction is over by this, for better or worse. */
  predicate Finishes(act: Act) { act.Send? && (act.what.CommitWork? || act.what.RollbackWork?) }

  /** The connection of the transaction that is running after an action. */
  ghost function After(running: Option<Conn>, act: Act): Option<Conn> {
    if act.Send? && act.what.BeginWork? && act.ok then Some(act.on)
    else if Finishes(act) then None
    else running
  }

  /** A transaction begins where none is running. In one, everything runs on its connection, which stays
      out, and no other is asked for; and only in one is there anything to end or to save. */
  ghost predicate MayFollow(running: Option<Conn>, act: Act) {
    match act
    case Lease(_) => running.None?
    case Send(c, Query(_), _) => running.Some? ==> running == Some(c)
    case Send(_, BeginWork, _) => running.None?
    case Send(c, _, _) => running == Some(c)
    case Return(c) => running != Some(c)
    case Remove(c) => running != Some(c)
  }

  /** The connection of the transaction that a history leaves running. */
  ghost function AfterAll(running: Option<Conn>, trace: seq<Act>): Option<Conn>
    decreases |trace|
  {
    if trace == [] then running else AfterAll(After(running, trace[0]), trace[1..])
  }

  /** A history in which every transaction has one connection. */
  ghost predicate OneConnection(running: Option<Conn>, trace: seq<Act>)
    decreases |trace|
  {
    trace != [] ==> MayFollow(running, trace[0]) && OneConnection(After(running, trace[0]), trace[1..])
  }

  /** Whatever runs after the beginning of a transaction and before its end runs on its connection; so
      does the end. */
  lemma {:induction false} RanWhereItBegan(running: Option<Conn>, trace: seq<Act>, i: nat, j: nat)
    requires OneConnection(running, trace) && i < j < |trace|
    requires trace[i].Send? && trace[i].what.BeginWork? && trace[i].ok
    requires forall k | i < k < j :: !Finishes(trace[k])
    ensures trace[j].Send? ==> trace[j].on == trace[i].on && !trace[j].what.BeginWork?
    ensures !trace[j].Lease? && trace[j] != Return(trace[i].on) && trace[j] != Remove(trace[i].on)
    decreases |trace|
  {
    if i > 0 {
      RanWhereItBegan(After(running, trace[0]), trace[1..], i - 1, j - 1);
    } else {
      StillRunning(trace[0].on, trace[1..], j - 1);
    }
  }

  lemma {:induction false} StillRunning(c: Conn, trace: seq<Act>, j: nat)
    requires OneConnection(Some(c), trace) && j < |trace|
    requires forall k | 0 <= k < j :: !Finishes(trace[k])
    ensures MayFollow(Some(c), trace[j])
    decreases |trace|
  {
    if j > 0 {
      StillRunning(c, trace[1..], j - 1);
    }
  }

  lemma {:induction false} OneAfterAnother(running: Option<Conn>, trace: seq<Act>, more: seq<Act>)
    ensures AfterAll(running, trace + more) == AfterAll(AfterAll(running, trace), more)
    ensures OneConnection(running, trace + more)
       <==> OneConnection(running, trace) && OneConnection(AfterAll(running, trace), more)
    decreases |trace|
  {
    hide MayFollow, After;
    if trace == [] {
      assert trace + more == more;
    } else {
      assert (trace + more)[1..] == trace[1..] + more;
      OneAfterAnother(After(running, trace[0]), trace[1..], more);
    }
  }

  /** A whole call carries a sound history on. */
  lemma CallFollows(m: Mode, call: Call, was: Standing, said: seq<Act>, ok: bool, now: Standing)
    requires Answered(m, call, was, said, ok, now) && (was.active ==> was.lease.Some?)
    ensures OneConnection(TransactionOf(was), said)
    ensures AfterAll(TransactionOf(was), said) == TransactionOf(now)
  {
    hide OneConnection, AfterAll;
    FewActs(TransactionOf(was), said);
  }

  lemma FewActs(running: Option<Conn>, said: seq<Act>)
    ensures said == [] ==> OneConnection(running, said) && AfterAll(running, said) == running
    ensures |said| == 1 ==>
              && (OneConnection(running, said) <==> MayFollow(running, said[0]))
              && AfterAll(running, said) == After(running, said[0])
    ensures |said| == 2 ==>
              var one := After(running, said[0]);
              && (OneConnection(running, said) <==> MayFollow(running, said[0]) && MayFollow(one, said[1]))
              && AfterAll(running, said) == After(one, said[1])
    ensures |said| == 3 ==>
              var one := After(running, said[0]); var two := After(one, said[1]);
              && (OneConnection(running, said) <==>
                    MayFollow(running, said[0]) && MayFollow(one, said[1]) && MayFollow(two, said[2]))
              && AfterAll(running, said) == After(two, said[2])
    decreases |said|
  {
    hide MayFollow, After;
    if 2 <= |said| <= 3 {
      FewActs(After(running, said[0]), said[1..]);
    }
  }

  // ----- one executor and others

  /** A call that was made: what it asked, its answer, and how it left the executor. */
  datatype Visit = Visit(call: Call, said: seq<Act>, ok: bool, left: Standing)

  ghost function Said(visits: seq<Visit>): seq<Act> {
    if visits == [] then [] else Said(visits[..|visits| - 1]) + visits[|visits| - 1].said
  }

  ghost function Left(visits: seq<Visit>): Standing {
    if visits == [] then Standing(None, false, Resting) else visits[|visits| - 1].left
  }

  ghost predicate Visited(m: Mode, visits: seq<Visit>) {
    forall i | 0 <= i < |visits| :: VisitFits(m, Left(visits[..i]), visits[i])
  }

  ghost predicate VisitFits(m: Mode, was: Standing, v: Visit) { Answered(m, v.call, was, v.said, v.ok, v.left) }

  lemma OneMoreVisit(m: Mode, visits: seq<Visit>, v: Visit)
    requires Visited(m, visits) && VisitFits(m, Left(visits), v)
    requires OneConnection(None, Said(visits)) && AfterAll(None, Said(visits)) == TransactionOf(Left(visits))
    requires Left(visits).active ==> Left(visits).lease.Some?
    ensures Visited(m, visits + [v]) && Said(visits + [v]) == Said(visits) + v.said && Left(visits + [v]) == v.left
    ensures OneConnection(None, Said(visits + [v])) && AfterAll(None, Said(visits + [v])) == TransactionOf(v.left)
  {
    hide OneConnection, AfterAll, Answered;
    var more := visits + [v];
    assert more[..|visits|] == visits;
    forall i | 0 <= i < |more|
      ensures VisitFits(m, Left(more[..i]), more[i])
    {
      if i < |visits| { assert more[..i] == visits[..i]; }
    }
    CallFollows(m, v.call, Left(visits), v.said, v.ok, v.left);
    OneAfterAnother(None, Said(visits), v.said);
  }

  method Perform(e: PooledExecutor, call: Call) returns (ghost ok: bool)
    requires e.Valid() && e.doing == Resting
    modifies e, e.pool
    ensures e.Valid() && e.doing == Resting && old(e.pool.log) <= e.pool.log
    ensures Answered(e.mode, call, old(e.Stands()), e.Since(old(e.pool.log)), ok, e.Stands())
  {
    hide Answered;
    match call {
      case Execute(sql) => ok := e.Execute(sql);
      case Begin => ok := e.BeginTransaction();
      case Commit => ok := e.CommitTransaction();
      case Rollback => ok := e.RollbackTransaction();
      case Savepoint(verb, name) => ok := e.SavepointStatement(verb, name);
      case Dispose => ok := e.Dispose();
    }
  }

  /** One more call, and what it adds to the history. */
  method Visiting(e: PooledExecutor, call: Call, ghost visits: seq<Visit>, ghost before: seq<Act>)
    returns (ghost more: seq<Visit>)
    requires e.Valid() && e.doing == Resting && e.Stands() == Left(visits)
    requires Visited(e.mode, visits) && e.pool.log == before + Said(visits)
    requires OneConnection(None, Said(visits)) && AfterAll(None, Said(visits)) == TransactionOf(Left(visits))
    modifies e, e.pool
    ensures e.Valid() && e.doing == Resting && e.Stands() == Left(more)
    ensures Visited(e.mode, more) && e.pool.log == before + Said(more)
    ensures OneConnection(None, Said(more)) && AfterAll(None, Said(more)) == TransactionOf(Left(more))
    ensures |more| == |visits| + 1 && more[..|visits|] == visits && more[|visits|].call == call
  {
    hide Answered, OneConnection, AfterAll, Said, Visited;
    e.Pause();
    ghost var was, log := e.Stands(), e.pool.log;
    ghost var ok := Perform(e, call);
    ghost var v := Visit(call, e.Since(log), ok, e.Stands());
    more := visits + [v];
    OneMoreVisit(e.mode, visits, v);
    assert e.pool.log == log + v.said;
  }

  /** However an executor is used and whatever the others do, every call is answered as it should be, no idle
      connection has a transaction open, every statement of a transaction runs where the transaction began,
      and nothing is kept in the end. */
  method Use(pool: ConnectionPool, mode: Mode, calls: seq<Call>) returns (ghost visits: seq<Visit>)
    requires pool.Valid()
    modifies pool
    ensures pool.Valid() && pool.log == old(pool.log) + Said(visits)
    ensures |visits| == |calls| + 1 && Visited(mode, visits)
    ensures forall i | 0 <= i <= |calls| :: visits[i].call == if i < |calls| then calls[i] else Dispose
    ensures OneConnection(None, Said(visits)) && Left(visits) == Standing(None, false, Resting)
  {
    hide OneConnection, AfterAll, Said, Visited;
    var e := new PooledExecutor(pool, mode);
    visits := [];
    NoVisits(mode);
    for i := 0 to |calls|
      invariant e.Valid() && e.doing == Resting && fresh(e) && e.pool == pool && e.mode == mode
      invariant |visits| == i && (forall k | 0 <= k < i :: visits[k].call == calls[k])
      invariant e.Stands() == Left(visits) && Visited(mode, visits) && pool.log == old(pool.log) + Said(visits)
      invariant OneConnection(None, Said(visits)) && AfterAll(None, Said(visits)) == TransactionOf(Left(visits))
      modifies e, pool
    {
      visits := Visiting(e, calls[i], visits, old(pool.log));
    }
    visits := Visiting(e, Dispose, visits, old(pool.log));
    DisposedIsOver(mode, visits);
  }

  lemma DisposedIsOver(m: Mode, visits: seq<Visit>)
    requires Visited(m, visits) && visits != [] && visits[|visits| - 1].call.Dispose?
    requires var was := Left(visits[..|visits| - 1]); was.doing == Resting && (was.active ==> was.lease.Some?)
    ensures Left(visits) == Standing(None, false, Resting)
  {
    assert VisitFits(m, Left(visits[..|visits| - 1]), visits[|visits| - 1]);
  }

  lemma NoVisits(m: Mode)
    ensures Visited(m, []) && Said([]) == [] && OneConnection(None, Said([])) && AfterAll(None, Said([])).None?
  {}

  // ----- several executors on one pool

  /** The executors are sound, and no connection is out with two of them. */
  ghost predicate Together(pool: ConnectionPool, es: seq<PooledExecutor>)
    reads pool, es
  {
    && (forall i | 0 <= i < |es| :: es[i].pool == pool && es[i].Valid())
    && (forall i, j | 0 <= i < j < |es| :: es[i] != es[j] && es[i].Holds() !! es[j].Holds())
  }

  datatype Turn = Turn(who: nat, call: Call)

  /** What one turn of an executor is: a call is started, or the next action on the pool is taken. */
  ghost predicate Goes(m: Mode, call: Call, was: Standing, acts: seq<Act>, now: Standing) {
    if was.doing == Resting then acts == [] && Starts(m, call, was, now)
    else |acts| == 1 && exists ok :: Acts(was, acts[0], ok, now)
  }

  /** One executor takes its next action: a new call if it rests, else its next action on the pool. */
  method TakeTurn(pool: ConnectionPool, es: seq<PooledExecutor>, i: nat, call: Call) returns (ghost acts: seq<Act>)
    requires pool.Valid() && Together(pool, es) && i < |es|
    modifies pool, es[i]
    ensures pool.Valid() && Together(pool, es) && pool.log == old(pool.log) + acts
    ensures Goes(es[i].mode, call, old(es[i].Stands()), acts, es[i].Stands())
    ensures OneConnection(TransactionOf(old(es[i].Stands())), acts)
            && TransactionOf(es[i].Stands()) == AfterAll(TransactionOf(old(es[i].Stands())), acts)
    ensures forall j, c | 0 <= j < |es| && j != i && c in es[j].Holds() ::
              c in pool.leased && (c in pool.open <==> c in old(pool.open))
  {
    hide Acts, Starts, MayFollow, After;
    var e := es[i];
    acts := [];
    if e.doing == Resting {
      ghost var was := e.Stands();
      var _ := e.Start(call);
      StartIsQuiet(e.mode, call, was, e.Stands());
      FewActs(TransactionOf(was), acts);
      assert pool.log + acts == pool.log;
    } else {
      ghost var act;
      var ok;
      ghost var was := e.Stands();
      ok, act := e.Step();
      acts := [act];
      ActFollows(e.mode, was, act, ok, e.Stands());
      FewActs(TransactionOf(old(e.Stands())), acts);
    }
  }

  lemma ActFollows(m: Mode, was: Standing, act: Act, ok: bool, now: Standing)
    requires Steady(m, was) && Acts(was, act, ok, now)
    ensures MayFollow(TransactionOf(was), act) && TransactionOf(now) == After(TransactionOf(was), act)
  {}

  lemma StartIsQuiet(m: Mode, call: Call, was: Standing, now: Standing)
    requires Starts(m, call, was, now)
    ensures TransactionOf(now) == TransactionOf(was)
  {}

  /** The executors between two turns: how they stand, what each has asked, and what all have asked. */
  datatype Scene = Scene(stands: seq<Standing>, traces: seq<seq<Act>>, log: seq<Act>)

  ghost predicate Shows(scene: Scene, pool: ConnectionPool, es: seq<PooledExecutor>)
    reads pool, es
  {
    && |scene.stands| == |scene.traces| == |es| && scene.log == pool.log
    && forall i | 0 <= i < |es| :: scene.stands[i] == es[i].Stands()
  }

  /** The turn of one executor is one of its actions, and the others stay as they are. */
  ghost predicate Turned(modes: seq<Mode>, turn: Turn, was: Scene, now: Scene) {
    if !(turn.who < |modes| == |was.stands| == |was.traces|) then now == was
    else
      var i := turn.who;
      exists acts, stand ::
        && Goes(modes[i], turn.call, was.stands[i], acts, stand)
        && now == Scene(was.stands[i := stand], was.traces[i := was.traces[i] + acts], was.log + acts)
  }

  ghost predicate SoundTraces(scene: Scene) {
    && |scene.stands| == |scene.traces|
    && forall i | 0 <= i < |scene.traces| ::
         OneConnection(None, scene.traces[i]) && AfterAll(None, scene.traces[i]) == TransactionOf(scene.stands[i])
  }

  lemma TurnIsSound(modes: seq<Mode>, turn: Turn, was: Scene, acts: seq<Act>, stand: Standing)
    requires SoundTraces(was) && turn.who < |modes| == |was.stands|
    requires Goes(modes[turn.who], turn.call, was.stands[turn.who], acts, stand)
    requires OneConnection(TransactionOf(was.stands[turn.who]), acts)
    requires TransactionOf(stand) == AfterAll(TransactionOf(was.stands[turn.who]), acts)
    ensures var i := turn.who;
            var now := Scene(was.stands[i := stand], was.traces[i := was.traces[i] + acts], was.log + acts);
            SoundTraces(now) && Turned(modes, turn, was, now)
  {
    hide OneConnection, Goes, AfterAll;
    OneAfterAnother(None, was.traces[turn.who], acts);
  }

  method NextScene(pool: ConnectionPool, es: seq<PooledExecutor>, modes: seq<Mode>, turn: Turn,
                   ghost was: Scene) returns (ghost now: Scene)
    requires pool.Valid() && Together(pool, es) && Shows(was, pool, es) && SoundTraces(was)
    requires |modes| == |es| && forall i | 0 <= i < |es| :: es[i].mode == modes[i]
    modifies pool, es
    ensures pool.Valid() && Together(pool, es) && Shows(now, pool, es) && SoundTraces(now)
    ensures Turned(modes, turn, was, now)
  {
    hide OneConnection, Goes, AfterAll, TransactionOf, SoundTraces, Turned;
    var i := turn.who;
    if i < |es| {
      assert forall j | 0 <= j < |es| && j != i :: es[j] != es[i];
      ghost var acts := TakeTurn(pool, es, i, turn.call);
      TurnIsSound(modes, turn, was, acts, es[i].Stands());
      now := Scene(was.stands[i := es[i].Stands()], was.traces[i := was.traces[i] + acts], was.log + acts);
    } else {
      now := was;
      Idle(modes, turn, was);
    }
  }

  lemma Idle(modes: seq<Mode>, turn: Turn, was: Scene)
    requires turn.who >= |modes|
    ensures Turned(modes, turn, was, was)
  {}

  ghost method First(pool: ConnectionPool, es: seq<PooledExecutor>) returns (scene: Scene)
    requires forall i | 0 <= i < |es| :: !es[i].active
    ensures Shows(scene, pool, es) && SoundTraces(scene) && forall i | 0 <= i < |es| :: scene.traces[i] == []
  {
    var stands := seq(|es|, i requires 0 <= i < |es| reads es => es[i].Stands());
    scene := Scene(stands, seq(|es|, _ => []), pool.log);
  }

  /** Whatever several executors do on one pool, and in whatever order their actions come: every turn is one
      action of its executor, no idle connection has a transaction open, no connection is out with two of
      them, and each runs the statements of a transaction where it began. */
  method Share(pool: ConnectionPool, es: seq<PooledExecutor>, modes: seq<Mode>, schedule: seq<Turn>)
    returns (ghost scenes: seq<Scene>)
    requires pool.Valid() && Together(pool, es) && forall i | 0 <= i < |es| :: !es[i].active
    requires |modes| == |es| && forall i | 0 <= i < |es| :: es[i].mode == modes[i]
    modifies pool, es
    ensures pool.Valid() && Together(pool, es)
    ensures |scenes| == |schedule| + 1
    ensures forall n | 0 <= n < |schedule| :: Turned(modes, schedule[n], scenes[n], scenes[n + 1])
    ensures old(Shows(scenes[0], pool, es)) && (forall i | 0 <= i < |es| :: scenes[0].traces[i] == [])
    ensures Shows(scenes[|schedule|], pool, es) && SoundTraces(scenes[|schedule|])
  {
    hide Turned, OneConnection, AfterAll, Together;
    ghost var scene := First(pool, es);
    scenes := [scene];
    for n := 0 to |schedule|
      invariant pool.Valid() && Together(pool, es)
      invariant |scenes| == n + 1 && scenes[n] == scene && Shows(scenes[n], pool, es) && SoundTraces(scenes[n])
      invariant old(Shows(scenes[0], pool, es)) && (forall i | 0 <= i < |es| :: scenes[0].traces[i] == [])
      invariant forall k | 0 <= k < n :: Turned(modes, schedule[k], scenes[k], scenes[k + 1])
    {
      scene := NextScene(pool, es, modes, schedule[n], scene);
      scenes := scenes + [scene];
    }
  }
}
