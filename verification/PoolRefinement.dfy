/** The resource pool, step by step under any schedule, does what the executors count on. */
module PoolRefinements {
  import opened Wrappers
  import opened ResourcePools
  import PooledExecutors

  /** What the executors see of the pool. `open` are the resources on which a transaction is open, of which
      the pool itself knows nothing. */
  ghost function Seen(pool: Pool, open: set<Res>): PooledExecutors.Stock
    reads pool
  {
    var w := pool.Tells();
    PooledExecutors.Stock(w.idle, w.leased, w.gone, open)
  }

  /** No resource is in two places; so what is seen is sound as soon as no transaction is open on one
      that is neither leased nor lost. */
  lemma SeenIsSound(pool: Pool, open: set<Res>)
    requires pool.Valid()
    ensures PooledExecutors.Sound(Seen(pool, open)) <==> open <= pool.Tells().leased + pool.Tells().gone
  {
    ToldApart(pool.idle, pool.leases, pool.gone, pool.threads, pool.places);
  }

  /** A connection is not given back while a transaction is open on it. */
  predicate Closed(s: Step, open: set<Res>) { s.Release? ==> s.r !in open }

  /** What a step is to the executor that takes it, or to the others. */
  ghost predicate Answers(s: Step, was: PooledExecutors.Stock, now: PooledExecutors.Stock) {
    match s
    case FinishValidation(_, _) => now.leased == was.leased || exists r :: PooledExecutors.Leases(was, Some(r), now)
    case FinishCreation(_) => now.leased == was.leased || exists r :: PooledExecutors.Leases(was, Some(r), now)
    case Release(_, r) => now.leased == was.leased || PooledExecutors.Returns(was, r, now)
    case DestroyLeased(_, r) => now == was || PooledExecutors.Removes(was, r, now)
    case _ => now.leased == was.leased
  }

  /** Gives `mine` away. */
  predicate TakesAway(s: Step, mine: set<Res>) { (s.Release? || s.DestroyLeased?) && s.r in mine }

  lemma MovesAnswer(s: Step, was: Whereabouts, now: Whereabouts, open: set<Res>, mine: set<Res>)
    requires Moves(s, was, now) && Closed(s, open) && open <= was.leased + was.gone && mine <= was.leased
    ensures open <= now.leased + now.gone
    ensures Answers(s, PooledExecutors.Stock(was.idle, was.leased, was.gone, open),
                    PooledExecutors.Stock(now.idle, now.leased, now.gone, open))
    ensures !TakesAway(s, mine) ==> mine <= now.leased
  {
    var a, b := PooledExecutors.Stock(was.idle, was.leased, was.gone, open),
                PooledExecutors.Stock(now.idle, now.leased, now.gone, open);
    if Lends(was, now) {
      var r :| r !in was.leased && r !in was.gone && now.leased == was.leased + {r};
      assert PooledExecutors.Leases(a, Some(r), b);
    }
  }

  /** Every step of the pool keeps what the executors see of it sound. To the executor that takes it, it is a
      lease, a return or a removal as that executor counts on; to one whose connections it does not give
      away, it is others at work. */
  method TakeSeen(pool: Pool, s: Step, ghost open: set<Res>, ghost mine: set<Res>)
    requires pool.Valid() && PooledExecutors.Sound(Seen(pool, open)) && Closed(s, open) && mine <= pool.leases
    modifies pool
    ensures pool.Valid() && PooledExecutors.Sound(Seen(pool, open))
    ensures Answers(s, old(Seen(pool, open)), Seen(pool, open))
    ensures !TakesAway(s, mine) ==> PooledExecutors.Spares(old(Seen(pool, open)), mine, Seen(pool, open))
  {
    hide Told, Moves, Pool.Valid, Answers;
    SeenIsSound(pool, open);
    ghost var was := pool.Tells();
    Take(pool, s);
    MovesAnswer(s, was, pool.Tells(), open, mine);
    SeenIsSound(pool, open);
  }

  /** A whole schedule in which nobody gives `mine` away is to their owner the others at work. */
  method RunSeen(pool: Pool, schedule: seq<Step>, ghost open: set<Res>, ghost mine: set<Res>)
    requires pool.Valid() && PooledExecutors.Sound(Seen(pool, open)) && mine <= pool.leases
    requires forall s | s in schedule :: Closed(s, open) && !TakesAway(s, mine)
    modifies pool
    ensures pool.Valid() && PooledExecutors.Sound(Seen(pool, open))
    ensures PooledExecutors.Spares(old(Seen(pool, open)), mine, Seen(pool, open))
  {
    hide Pool.Valid, Answers;
    for i := 0 to |schedule|
      invariant pool.Valid() && PooledExecutors.Sound(Seen(pool, open)) && mine <= pool.leases
    {
      TakeSeen(pool, schedule[i], open, mine);
    }
  }
}
