/** The resource pool as its threads see it: every method is one stretch of code that a thread
    runs without being interrupted, so any schedule of calls is an interleaving. */
module ResourcePools {
  import opened Wrappers
  import opened Sorting

  datatype Res = Res(id: nat)

  datatype Thread = Thread(id: nat)

  /** What a thread is in the middle of, and the resources that only it can see. */
  datatype Activity =
    | Validating(r: Res)            // taken from the idle ones, counted as leased
    | Creating                      // a place is reserved
    | Created(r: Res)               // not yet counted as leased
    | Disposing(rs: seq<Res>)       // on their way to be destroyed

  datatype IdleEntry = IdleEntry(resource: Res, lastUsed: int)

  /** Where a resource is. */
  datatype Place = InIdle | InLease | WithThread(t: Thread) | Destroyed

  function Held(a: Activity): seq<Res> {
    match a
    case Validating(r) => [r]
    case Creating => []
    case Created(r) => [r]
    case Disposing(rs) => rs
  }

  function Resources(entries: seq<IdleEntry>): (rs: seq<Res>)
    ensures |rs| == |entries| && forall i | 0 <= i < |rs| :: rs[i] == entries[i].resource
  {
    seq(|entries|, i requires 0 <= i < |entries| => entries[i].resource)
  }

  /** Two counters count activities: those that validate, and those that create. */
  predicate Counts(a: Activity, validating: bool) {
    if validating then a.Validating? else a.Creating? || a.Created?
  }

  ghost function Those(threads: map<Thread, Activity>, validating: bool): set<Thread> {
    set t | t in threads && Counts(threads[t], validating)
  }

  lemma CountChange(threads: map<Thread, Activity>, t: Thread, a: Activity, validating: bool)
    ensures |Those(threads[t := a], validating)|
         == |Those(threads, validating)|
            - (if t in threads && Counts(threads[t], validating) then 1 else 0)
            + (if Counts(a, validating) then 1 else 0)
  {
    var was, now := Those(threads, validating), Those(threads[t := a], validating);
    ThoseElsewhere(threads, t, a, validating);
    hide Counts, Those;
    SizeWithout(was, t);
    SizeWithout(now, t);
  }

  lemma ThoseElsewhere(threads: map<Thread, Activity>, t: Thread, a: Activity, validating: bool)
    ensures Those(threads[t := a], validating) - {t} == Those(threads, validating) - {t}
    ensures t in Those(threads, validating) <==> t in threads && Counts(threads[t], validating)
    ensures t in Those(threads[t := a], validating) <==> Counts(a, validating)
  {
    hide Counts;
  }

  lemma CountEnd(threads: map<Thread, Activity>, t: Thread, validating: bool)
    requires t in threads
    ensures |Those(threads - {t}, validating)|
         == |Those(threads, validating)| - (if Counts(threads[t], validating) then 1 else 0)
  {
    var was := Those(threads, validating);
    assert Those(threads - {t}, validating) == was - {t};
    SizeWithout(was, t);
  }

  lemma SizeWithout<T>(s: set<T>, x: T)
    ensures |s - {x}| == |s| - if x in s then 1 else 0
  {
    if x !in s { assert s - {x} == s; }
  }

  // ----- one place for every resource

  /** Every resource is idle, or out on a lease, or seen by one thread alone, or handed to destruction, once. */
  ghost predicate Placed(idle: seq<IdleEntry>, leases: set<Res>, gone: seq<Res>, threads: map<Thread, Activity>,
                         places: map<Res, Place>)
  {
    && NoRepeat(Resources(idle)) && NoRepeat(gone)
    && (forall r :: r in Resources(idle) <==> r in places && places[r] == InIdle)
    && (forall r :: r in leases <==> r in places && places[r] == InLease)
    && (forall r :: r in gone <==> r in places && places[r] == Destroyed)
    && (forall t | t in threads :: NoRepeat(Held(threads[t])))
    && (forall t, r | t in threads && r in Held(threads[t]) :: r in places && places[r] == WithThread(t))
    && (forall r | r in places && places[r].WithThread? :: places[r].t in threads && r in Held(threads[places[r].t]))
  }

  /** Resources leave the idle list for a thread that had none. */
  lemma IdleToThread(idle: seq<IdleEntry>, leases: set<Res>, gone: seq<Res>, threads: map<Thread, Activity>,
                     places: map<Res, Place>, idle': seq<IdleEntry>, t: Thread, a: Activity)
    requires Placed(idle, leases, gone, threads, places) && (t in threads ==> Held(threads[t]) == [])
    requires NoRepeat(Resources(idle')) && NoRepeat(Held(a))
    requires forall r :: r in Resources(idle) <==> r in Resources(idle') || r in Held(a)
    requires forall r :: !(r in Resources(idle') && r in Held(a))
    ensures Placed(idle', leases, gone, threads[t := a],
                   map r | r in places :: if r in Held(a) then WithThread(t) else places[r])
  {}

  /** A thread goes on with the same resources. */
  lemma ThreadGoesOn(idle: seq<IdleEntry>, leases: set<Res>, gone: seq<Res>, threads: map<Thread, Activity>,
                     places: map<Res, Place>, t: Thread, a: Activity)
    requires Placed(idle, leases, gone, threads, places)
    requires Held(a) == if t in threads then Held(threads[t]) else []
    ensures Placed(idle, leases, gone, threads[t := a], places)
  {}

  lemma ThreadEnds(idle: seq<IdleEntry>, leases: set<Res>, gone: seq<Res>, threads: map<Thread, Activity>,
                   places: map<Res, Place>, t: Thread)
    requires Placed(idle, leases, gone, threads, places)
    requires t in threads && Held(threads[t]) == []
    ensures Placed(idle, leases, gone, threads - {t}, places)
  {}

  lemma ThreadToLease(idle: seq<IdleEntry>, leases: set<Res>, gone: seq<Res>, threads: map<Thread, Activity>,
                      places: map<Res, Place>, t: Thread, r: Res)
    requires Placed(idle, leases, gone, threads, places) && t in threads && Held(threads[t]) == [r]
    ensures r in places && r !in leases && Placed(idle, leases + {r}, gone, threads - {t}, places[r := InLease])
  {
    assert r in Held(threads[t]);
  }

  lemma ThreadToIdle(idle: seq<IdleEntry>, leases: set<Res>, gone: seq<Res>, threads: map<Thread, Activity>,
                     places: map<Res, Place>, t: Thread, r: Res, now: int)
    requires Placed(idle, leases, gone, threads, places) && t in threads && Held(threads[t]) == [r]
    ensures r in places && Placed(idle + [IdleEntry(r, now)], leases, gone, threads - {t}, places[r := InIdle])
  {
    assert r in Held(threads[t]) && forall x | x in Held(threads[t]) :: x == r;
    var idle' := idle + [IdleEntry(r, now)];
    assert Resources(idle') == Resources(idle) + [r];
    forall i | 0 <= i < |idle|
      ensures Resources(idle)[i] != r
    {
      assert Resources(idle)[i] in Resources(idle);
    }
  }

  lemma LeaseToIdle(idle: seq<IdleEntry>, leases: set<Res>, gone: seq<Res>, threads: map<Thread, Activity>,
                    places: map<Res, Place>, r: Res, now: int)
    requires Placed(idle, leases, gone, threads, places) && r in leases
    ensures r in places && Placed(idle + [IdleEntry(r, now)], leases - {r}, gone, threads, places[r := InIdle])
  {
    assert Resources(idle + [IdleEntry(r, now)]) == Resources(idle) + [r];
  }

  lemma LeaseToThread(idle: seq<IdleEntry>, leases: set<Res>, gone: seq<Res>, threads: map<Thread, Activity>,
                      places: map<Res, Place>, t: Thread, a: Activity, r: Res)
    requires Placed(idle, leases, gone, threads, places) && r in leases && t !in threads && Held(a) == [r]
    ensures r in places && Placed(idle, leases - {r}, gone, threads[t := a], places[r := WithThread(t)])
  {}

  lemma NewToThread(idle: seq<IdleEntry>, leases: set<Res>, gone: seq<Res>, threads: map<Thread, Activity>,
                    places: map<Res, Place>, t: Thread, a: Activity, r: Res)
    requires Placed(idle, leases, gone, threads, places) && t in threads && Held(threads[t]) == [] && Held(a) == [r]
    requires r !in places
    ensures Placed(idle, leases, gone, threads[t := a], places[r := WithThread(t)])
  {}

  lemma ThreadToGone(idle: seq<IdleEntry>, leases: set<Res>, gone: seq<Res>, threads: map<Thread, Activity>,
                     places: map<Res, Place>, t: Thread)
    requires Placed(idle, leases, gone, threads, places)
    requires t in threads && threads[t].Disposing? && threads[t].rs != []
    ensures var rs := threads[t].rs;
            rs[0] !in gone && rs[0] in places
            && Placed(idle, leases, gone + [rs[0]], threads[t := Disposing(rs[1..])], places[rs[0] := Destroyed])
  {
    var rs := threads[t].rs;
    assert rs[0] in Held(threads[t]);
    assert forall r :: r in rs <==> r == rs[0] || r in rs[1..];
    assert rs[0] !in rs[1..];
  }

  // ----- what a user of the pool can tell

  /** The resources that are there for the taking, that are leased, and that are lost for good. */
  datatype Whereabouts = Whereabouts(idle: set<Res>, leased: set<Res>, gone: set<Res>)

  ghost function Checked(threads: map<Thread, Activity>): set<Res> {
    set t | t in threads && threads[t].Validating? :: threads[t].r
  }

  ghost function Doomed(threads: map<Thread, Activity>): set<Res> {
    set t, r | t in threads && threads[t].Disposing? && r in threads[t].rs :: r
  }

  /** One that is being validated may still be leased, one that waits for destruction may not. */
  ghost function Told(idle: seq<IdleEntry>, leases: set<Res>, gone: seq<Res>,
                      threads: map<Thread, Activity>): (w: Whereabouts)
    ensures w.leased == leases
  {
    Whereabouts((set r | r in Resources(idle)) + Checked(threads), leases, (set r | r in gone) + Doomed(threads))
  }

  lemma ToldApart(idle: seq<IdleEntry>, leases: set<Res>, gone: seq<Res>, threads: map<Thread, Activity>,
                  places: map<Res, Place>)
    requires Placed(idle, leases, gone, threads, places)
    ensures var w := Told(idle, leases, gone, threads); w.idle !! w.leased && w.idle !! w.gone && w.leased !! w.gone
  {
    forall t | t in threads && threads[t].Validating?
      ensures threads[t].r in places && places[threads[t].r] == WithThread(t)
    {
      assert threads[t].r in Held(threads[t]);
    }
    forall t, r | t in threads && threads[t].Disposing? && r in threads[t].rs
      ensures r in places && places[r] == WithThread(t)
    {
      assert r in Held(threads[t]);
    }
  }

  /** What a thread alone can see is neither leased nor gone, unless it waits for destruction. */
  lemma SeenIsApart(idle: seq<IdleEntry>, leases: set<Res>, gone: seq<Res>, threads: map<Thread, Activity>,
                    places: map<Res, Place>, t: Thread, r: Res)
    requires Placed(idle, leases, gone, threads, places) && t in threads && r in Held(threads[t])
    requires !threads[t].Disposing?
    ensures r !in leases && r !in Told(idle, leases, gone, threads).gone
  {
    forall u | u in threads && threads[u].Disposing?
      ensures r !in threads[u].rs
    {
      assert Held(threads[u]) == threads[u].rs;
    }
  }

  lemma DoomedChange(threads: map<Thread, Activity>, t: Thread, a: Activity)
    requires t in threads ==> !threads[t].Disposing?
    ensures Doomed(threads[t := a]) == Doomed(threads) + (if a.Disposing? then set r | r in a.rs else {})
    ensures Doomed(threads - {t}) == Doomed(threads)
  {
    var more := if a.Disposing? then set r | r in a.rs else {};
    forall r
      ensures r in Doomed(threads[t := a]) <==> r in Doomed(threads) + more
    {
      if r in Doomed(threads) {
        var u :| u in threads && threads[u].Disposing? && r in threads[u].rs;
        assert u in threads[t := a] && threads[t := a][u] == threads[u];
      }
      if r in more { assert t in threads[t := a] && threads[t := a][t] == a; }
    }
    forall r | r in Doomed(threads)
      ensures r in Doomed(threads - {t})
    {
      var u :| u in threads && threads[u].Disposing? && r in threads[u].rs;
      assert u in threads - {t} && (threads - {t})[u] == threads[u];
    }
  }

  lemma OneGoes(threads: map<Thread, Activity>, t: Thread)
    requires t in threads && threads[t].Disposing?
    ensures var rs := threads[t].rs;
            if rs == [] then Doomed(threads) <= Doomed(threads - {t})
            else Doomed(threads) <= Doomed(threads[t := Disposing(rs[1..])]) + {rs[0]}
  {
    var rs := threads[t].rs;
    forall r | r in Doomed(threads)
      ensures if rs == [] then r in Doomed(threads - {t})
              else r in Doomed(threads[t := Disposing(rs[1..])]) || r == rs[0]
    {
      var u :| u in threads && threads[u].Disposing? && r in threads[u].rs;
      if rs == [] {
        assert u in threads - {t} && (threads - {t})[u] == threads[u];
      } else {
        var now := threads[t := Disposing(rs[1..])];
        assert u in now && now[u].Disposing? && (r in now[u].rs || r == rs[0]);
      }
    }
  }

  /** Whatever a thread goes on to, what is lost stays lost. */
  lemma LostStays(idle: seq<IdleEntry>, leases: set<Res>, gone: seq<Res>, threads: map<Thread, Activity>,
                  idle': seq<IdleEntry>, leases': set<Res>, t: Thread, a: Activity)
    requires t in threads ==> !threads[t].Disposing?
    ensures Told(idle, leases, gone, threads).gone <= Told(idle', leases', gone, threads[t := a]).gone
    ensures Told(idle, leases, gone, threads).gone == Told(idle', leases', gone, threads - {t}).gone
  {
    DoomedChange(threads, t, a);
  }

  ghost predicate Lends(was: Whereabouts, now: Whereabouts) {
    now.gone == was.gone && exists r :: r !in was.leased && r !in was.gone && now.leased == was.leased + {r}
  }

  lemma LeaseLends(idle: seq<IdleEntry>, leases: set<Res>, gone: seq<Res>, threads: map<Thread, Activity>,
                   places: map<Res, Place>, t: Thread, r: Res)
    requires Placed(idle, leases, gone, threads, places) && t in threads
    requires threads[t] == Validating(r) || threads[t] == Created(r)
    ensures Lends(Told(idle, leases, gone, threads), Told(idle, leases + {r}, gone, threads - {t}))
  {
    hide Placed, Resources;
    SeenIsApart(idle, leases, gone, threads, places, t, r);
    LostStays(idle, leases, gone, threads, idle, leases + {r}, t, Creating);
  }

  /** A leased resource that is destroyed is lost, and the idle ones stay. */
  lemma DestroyLoses(idle: seq<IdleEntry>, leases: set<Res>, gone: seq<Res>, threads: map<Thread, Activity>,
                     t: Thread, r: Res)
    requires t !in threads
    ensures var was := Told(idle, leases, gone, threads);
            var now := Told(idle, leases - {r}, gone, threads[t := Disposing([r])]);
            was.gone <= now.gone && r in now.gone && now.idle == was.idle
  {
    DoomedChange(threads, t, Disposing([r]));
    CheckedChange(threads, t, Disposing([r]));
  }

  lemma DisposalKeeps(idle: seq<IdleEntry>, leases: set<Res>, gone: seq<Res>, threads: map<Thread, Activity>, t: Thread)
    requires t in threads && threads[t].Disposing?
    ensures var rs := threads[t].rs;
            Told(idle, leases, gone, threads).gone
            <= if rs == [] then Told(idle, leases, gone, threads - {t}).gone
               else Told(idle, leases, gone + [rs[0]], threads[t := Disposing(rs[1..])]).gone
  {
    OneGoes(threads, t);
  }

  lemma CheckedChange(threads: map<Thread, Activity>, t: Thread, a: Activity)
    requires t !in threads && !a.Validating?
    ensures Checked(threads[t := a]) == Checked(threads)
  {
    var now := threads[t := a];
    forall r
      ensures r in Checked(now) <==> r in Checked(threads)
    {
      if u :| u in threads && threads[u].Validating? && threads[u].r == r { assert u in now && now[u] == threads[u]; }
      if u :| u in now && now[u].Validating? && now[u].r == r { assert u in threads && now[u] == threads[u]; }
    }
  }

  datatype PoolState = PoolState(
    idle: seq<IdleEntry>, leased: int, creating: int, destroyed: bool, clock: int, leases: set<Res>,
    threads: map<Thread, Activity>, gone: seq<Res>, made: nat)

  class Pool {
    const max: nat
    const min: nat
    const idleTimeout: int
    /** The entries that nobody uses, least recently used first. */
    var idle: seq<IdleEntry>
    var leased: nat
    var creating: nat
    var destroyed: bool
    var clock: int
    /** The resources of the leases that are out. */
    var leases: set<Res>
    var threads: map<Thread, Activity>
    /** The resources that were handed to destruction, in order. */
    var gone: seq<Res>
    /** The number of resources that were created. */
    var made: nat
    /** Where each resource is that was ever created. */
    ghost var places: map<Res, Place>

    /** The bound and the counters. */
    ghost predicate Counted()
      reads this
    {
      && |idle| + leased + creating <= max && min <= max
      && leased == |leases| + |Those(threads, true)|
      && creating == |Those(threads, false)|
    }

    ghost predicate Ordered()
      reads this
    {
      && (destroyed ==> idle == [])
      && (forall i, j | 0 <= i < j < |idle| :: idle[i].lastUsed <= idle[j].lastUsed)
      && (forall i | 0 <= i < |idle| :: idle[i].lastUsed <= clock)
    }

    ghost predicate Valid()
      reads this
    {
      Counted() && Placed(idle, leases, gone, threads, places) && Ordered() && forall r :: r in places <==> r.id < made
    }

    /** All that the pool holds. */
    ghost function State(): PoolState
      reads this
    {
      PoolState(idle, leased, creating, destroyed, clock, leases, threads, gone, made)
    }

    ghost function Tells(): Whereabouts
      reads this
    {
      Told(idle, leases, gone, threads)
    }

    constructor (max: nat, min: nat, idleTimeout: int)
      requires max > 0
      ensures Valid() && idle == [] && !destroyed && threads == map[] && leases == {}
      ensures this.max == max && this.min == (if min < max then min else max) && this.idleTimeout == idleTimeout
    {
      this.max := max;
      this.min := if min < max then min else max;
      this.idleTimeout := idleTimeout;
      idle, leased, creating, destroyed, clock := [], 0, 0, false, 0;
      leases, threads, gone, made, places := {}, map[], [], 0, map[];
    }

    /** Time passes. */
    method Tick(ms: nat)
      requires Valid()
      modifies this`clock
      ensures Valid() && clock == old(clock) + ms
    {
      clock := clock + ms;
    }

    // ----- acquire

    /** Takes the most recently used idle resource, or reserves a place for a new one. */
    method Acquire(t: Thread) returns (ok: bool)
      requires Valid() && t !in threads
      modifies this`idle, this`leased, this`creating, this`threads, this`places
      ensures Valid()
      ensures ok <==> !destroyed && (old(idle) != [] || |old(idle)| + old(leased) + old(creating) < max)
      ensures !ok ==> idle == old(idle) && threads == old(threads) && leased == old(leased) && creating == old(creating)
      ensures ok && old(idle) != [] ==>
                && idle == old(idle)[..|old(idle)| - 1]
                && threads == old(threads)[t := Validating(old(idle)[|old(idle)| - 1].resource)]
                && leased == old(leased) + 1 && creating == old(creating)
      ensures ok && old(idle) == [] ==>
                && idle == [] && threads == old(threads)[t := Creating] && leased == old(leased)
                && creating == old(creating) + 1
    {
      hide Placed;
      if destroyed { return false; }
      if idle != [] {
        var r := idle[|idle| - 1].resource;
        LastIdle(idle, leases, gone, threads, places, t);
        CountChange(threads, t, Validating(r), true);
        CountChange(threads, t, Validating(r), false);
        idle := idle[..|idle| - 1];
        leased := leased + 1;
        threads := threads[t := Validating(r)];
        places := places[r := WithThread(t)];
        ok := true;
      } else if |idle| + leased + creating < max {
        CountChange(threads, t, Creating, true);
        CountChange(threads, t, Creating, false);
        ThreadGoesOn(idle, leases, gone, threads, places, t, Creating);
        creating := creating + 1;
        threads := threads[t := Creating];
        ok := true;
      } else {
        ok := false;
      }
    }

    /** After validation: the lease, or the resource is given up. */
    method FinishValidation(t: Thread, valid: bool) returns (lease: Option<Res>)
      requires Valid() && t in threads && threads[t].Validating?
      modifies this`leased, this`threads, this`leases, this`places
      ensures Valid()
      ensures lease == if valid && !destroyed then Some(old(threads)[t].r) else None
      ensures lease.Some? ==>
                leases == old(leases) + {lease.value} && threads == old(threads) - {t} && leased == old(leased)
      ensures lease.None? ==>
                && leases == old(leases) && threads == old(threads)[t := Disposing([old(threads)[t].r])]
                && leased == old(leased) - 1
    {
      hide Placed;
      var r := threads[t].r;
      if valid && !destroyed {
        CountEnd(threads, t, true);
        CountEnd(threads, t, false);
        ThreadToLease(idle, leases, gone, threads, places, t, r);
        threads := threads - {t};
        leases := leases + {r};
        places := places[r := InLease];
        lease := Some(r);
      } else {
        CountChange(threads, t, Disposing([r]), true);
        CountChange(threads, t, Disposing([r]), false);
        ThreadGoesOn(idle, leases, gone, threads, places, t, Disposing([r]));
        leased := leased - 1;
        threads := threads[t := Disposing([r])];
        lease := None;
      }
    }

    /** The adapter has made a resource, outside the lock. */
    method Create(t: Thread)
      requires Valid() && t in threads && threads[t].Creating?
      modifies this`threads, this`places, this`made
      ensures Valid() && threads == old(threads)[t := Created(Res(old(made)))] && made == old(made) + 1
    {
      hide Placed;
      var r := Res(made);
      CountChange(threads, t, Created(r), true);
      CountChange(threads, t, Created(r), false);
      NewToThread(idle, leases, gone, threads, places, t, Created(r), r);
      made := made + 1;
      threads := threads[t := Created(r)];
      places := places[r := WithThread(t)];
    }

    /** The adapter has failed to make one. */
    method FailCreation(t: Thread)
      requires Valid() && t in threads && threads[t].Creating?
      modifies this`creating, this`threads
      ensures Valid() && threads == old(threads) - {t} && creating == old(creating) - 1
    {
      hide Placed;
      CountEnd(threads, t, true);
      CountEnd(threads, t, false);
      ThreadEnds(idle, leases, gone, threads, places, t);
      creating := creating - 1;
      threads := threads - {t};
    }

    /** After creation: the lease, unless the pool was destroyed meanwhile. */
    method FinishCreation(t: Thread) returns (lease: Option<Res>)
      requires Valid() && t in threads && threads[t].Created?
      modifies this`creating, this`leased, this`threads, this`leases, this`places
      ensures Valid() && creating == old(creating) - 1
      ensures lease == if destroyed then None else Some(old(threads)[t].r)
      ensures lease.Some? ==>
                leases == old(leases) + {lease.value} && threads == old(threads) - {t} && leased == old(leased) + 1
      ensures lease.None? ==>
                && leases == old(leases) && threads == old(threads)[t := Disposing([old(threads)[t].r])]
                && leased == old(leased)
    {
      hide Placed;
      var r := threads[t].r;
      if destroyed {
        CountChange(threads, t, Disposing([r]), true);
        CountChange(threads, t, Disposing([r]), false);
        ThreadGoesOn(idle, leases, gone, threads, places, t, Disposing([r]));
        creating := creating - 1;
        threads := threads[t := Disposing([r])];
        lease := None;
      } else {
        CountEnd(threads, t, true);
        CountEnd(threads, t, false);
        ThreadToLease(idle, leases, gone, threads, places, t, r);
        creating := creating - 1;
        leased := leased + 1;
        threads := threads - {t};
        leases := leases + {r};
        places := places[r := InLease];
        lease := Some(r);
      }
    }

    // ----- warming up, before any other thread knows the pool

    method ReserveWarm(t: Thread) returns (ok: bool)
      requires Valid() && !destroyed && t !in threads
      modifies this`creating, this`threads
      ensures Valid() && (ok <==> |idle| < min && |idle| + leased + old(creating) < max)
      ensures threads == if ok then old(threads)[t := Creating] else old(threads)
    {
      hide Placed;
      ok := |idle| < min && |idle| + leased + creating < max;
      if ok {
        CountChange(threads, t, Creating, true);
        CountChange(threads, t, Creating, false);
        ThreadGoesOn(idle, leases, gone, threads, places, t, Creating);
        creating := creating + 1;
        threads := threads[t := Creating];
      }
    }

    method FinishWarm(t: Thread)
      requires Valid() && !destroyed && t in threads && threads[t].Created?
      modifies this`creating, this`idle, this`threads, this`places
      ensures Valid() && idle == old(idle) + [IdleEntry(old(threads)[t].r, clock)] && threads == old(threads) - {t}
    {
      hide Placed;
      var r := threads[t].r;
      CountEnd(threads, t, true);
      CountEnd(threads, t, false);
      ThreadToIdle(idle, leases, gone, threads, places, t, r, clock);
      creating := creating - 1;
      idle := idle + [IdleEntry(r, clock)];
      threads := threads - {t};
      places := places[r := InIdle];
    }

    // ----- leases

    /** Back to the pool, as the most recently used; or to destruction, once the pool is destroyed. */
    method Release(t: Thread, r: Res)
      requires Valid() && r in leases && t !in threads
      modifies this`leased, this`idle, this`threads, this`leases, this`places
      ensures Valid() && leases == old(leases) - {r} && leased == old(leased) - 1
      ensures idle == if destroyed then old(idle) else old(idle) + [IdleEntry(r, clock)]
      ensures threads == if destroyed then old(threads)[t := Disposing([r])] else old(threads)
    {
      hide Placed;
      leased := leased - 1;
      if destroyed {
        CountChange(threads, t, Disposing([r]), true);
        CountChange(threads, t, Disposing([r]), false);
        LeaseToThread(idle, leases, gone, threads, places, t, Disposing([r]), r);
        threads := threads[t := Disposing([r])];
        places := places[r := WithThread(t)];
      } else {
        LeaseToIdle(idle, leases, gone, threads, places, r, clock);
        idle := idle + [IdleEntry(r, clock)];
        places := places[r := InIdle];
      }
      leases := leases - {r};
    }

    /** Out of the pool for good. */
    method DestroyLeased(t: Thread, r: Res)
      requires Valid() && r in leases && t !in threads
      modifies this`leased, this`threads, this`leases, this`places
      ensures Valid() && leases == old(leases) - {r} && leased == old(leased) - 1
      ensures threads == old(threads)[t := Disposing([r])]
    {
      hide Placed;
      CountChange(threads, t, Disposing([r]), true);
      CountChange(threads, t, Disposing([r]), false);
      LeaseToThread(idle, leases, gone, threads, places, t, Disposing([r]), r);
      leased := leased - 1;
      threads := threads[t := Disposing([r])];
      places := places[r := WithThread(t)];
      leases := leases - {r};
    }

    /** Hands one resource to destruction, outside the lock. No resource goes there twice. */
    method Dispose(t: Thread)
      requires Valid() && t in threads && threads[t].Disposing?
      modifies this`threads, this`gone, this`places
      ensures Valid()
      ensures var rs := old(threads)[t].rs;
              if rs == [] then threads == old(threads) - {t} && gone == old(gone)
              else
                && rs[0] !in old(gone) && gone == old(gone) + [rs[0]]
                && threads == old(threads)[t := Disposing(rs[1..])]
    {
      hide Placed;
      var rs := threads[t].rs;
      if rs == [] {
        CountEnd(threads, t, true);
        CountEnd(threads, t, false);
        ThreadEnds(idle, leases, gone, threads, places, t);
        threads := threads - {t};
      } else {
        CountChange(threads, t, Disposing(rs[1..]), true);
        CountChange(threads, t, Disposing(rs[1..]), false);
        ThreadToGone(idle, leases, gone, threads, places, t);
        gone := gone + [rs[0]];
        threads := threads[t := Disposing(rs[1..])];
        places := places[rs[0] := Destroyed];
      }
    }

    // ----- the pool as a whole

    /** From now on nothing is idle. */
    method Destroy(t: Thread)
      requires Valid() && t !in threads
      modifies this`destroyed, this`idle, this`threads, this`places
      ensures Valid() && destroyed
      ensures if old(destroyed) then idle == old(idle) && threads == old(threads)
              else idle == [] && threads == old(threads)[t := Disposing(Resources(old(idle)))]
    {
      hide Placed;
      if destroyed { return; }
      AllIdle(idle, leases, gone, threads, places, t);
      destroyed := true;
      var rs := TakeAllIdle();
      CountChange(threads, t, Disposing(rs), true);
      CountChange(threads, t, Disposing(rs), false);
      threads := threads[t := Disposing(rs)];
      places := map r | r in places :: if r in rs then WithThread(t) else places[r];
    }

    method TakeAllIdle() returns (rs: seq<Res>)
      modifies this`idle
      ensures idle == [] && rs == Resources(old(idle))
    {
      rs := [];
      ghost var all := idle;
      while idle != []
        invariant rs + Resources(idle) == Resources(all)
        decreases |idle|
      {
        assert Resources(idle) == [idle[0].resource] + Resources(idle[1..]);
        rs := rs + [idle[0].resource];
        idle := idle[1..];
      }
      assert rs + Resources([]) == rs;
    }

    /** Rebuilds the idle list without the resources that have timed out, as far as `min` allows. They
        are the first ones, since the list is in the order of last use. */
    method Sweep() returns (expired: seq<Res>, ghost n: nat)
      requires Ordered()
      modifies this`idle
      ensures n <= |old(idle)| && idle == old(idle)[n..] && expired == Resources(old(idle)[..n])
      ensures n > 0 ==> |idle| >= min
      ensures forall i | 0 <= i < n :: clock - old(idle)[i].lastUsed >= idleTimeout
      ensures n < |old(idle)| && |idle| > min ==> clock - old(idle)[n].lastUsed < idleTimeout
    {
      var removable := if |idle| > min then |idle| - min else 0;
      var removed := 0;
      expired := [];
      var keep := [];
      ghost var all, k := idle, 0;
      while idle != []
        invariant k <= |all| && idle == all[k..] && removed <= removable && removed <= k
        invariant expired == Resources(all[..removed]) && keep == all[removed..k]
        invariant forall i | 0 <= i < removed :: clock - all[i].lastUsed >= idleTimeout
        invariant removed < k ==> removed == removable || clock - all[removed].lastUsed < idleTimeout
        decreases |idle|
      {
        var entry := idle[0];
        idle := idle[1..];
        if clock - entry.lastUsed >= idleTimeout && removed < removable {
          assert all[removed].lastUsed <= all[k].lastUsed;
          assert removed == k;
          assert all[..k + 1] == all[..k] + [entry];
          expired := expired + [entry.resource];
          removed := removed + 1;
        } else {
          keep := keep + [entry];
        }
        k := k + 1;
      }
      assert all[removed..k] == all[removed..];
      idle := keep;
      n := removed;
    }

    /** One pass of the reaper: it takes out timed-out resources, the least recently used first,
        and never leaves fewer than `min`. */
    method Reap(t: Thread) returns (ghost n: nat)
      requires Valid() && t !in threads
      modifies this`idle, this`threads, this`places
      ensures Valid()
      ensures destroyed ==> idle == old(idle) && threads == old(threads)
      ensures !destroyed ==>
                && n <= |old(idle)| && idle == old(idle)[n..]
                && threads == old(threads)[t := Disposing(Resources(old(idle)[..n]))]
                && (n > 0 ==> |idle| >= min)
                && (forall i | 0 <= i < n :: clock - old(idle)[i].lastUsed >= idleTimeout)
                && (n < |old(idle)| && |idle| > min ==> clock - old(idle)[n].lastUsed < idleTimeout)
    {
      hide Placed, Resources;
      n := 0;
      if destroyed { return; }
      var expired;
      expired, n := Sweep();
      OldestIdle(old(idle), leases, gone, threads, places, t, n);
      CountChange(threads, t, Disposing(expired), true);
      CountChange(threads, t, Disposing(expired), false);
      threads := threads[t := Disposing(expired)];
      places := map r | r in places :: if r in expired then WithThread(t) else places[r];
    }
  }

  /** Warms the pool up, before any other thread knows it, until a creation fails or `min` are idle.
      `successes` creations succeed. */
  method WarmMinimum(pool: Pool, t: Thread, successes: nat)
    requires pool.Valid() && !pool.destroyed && pool.threads == map[] && pool.leases == {} && pool.idle == []
    modifies pool
    ensures pool.Valid() && pool.threads == map[] && !pool.destroyed
    ensures |pool.idle| == if successes < pool.min then successes else pool.min
  {
    var left := successes;
    while true
      invariant pool.Valid() && !pool.destroyed && pool.threads == map[] && pool.leases == {}
      invariant |pool.idle| + left == successes && |pool.idle| <= pool.min
      decreases pool.min - |pool.idle|
    {
      NoneBusy(pool);
      var ok := pool.ReserveWarm(t);
      if !ok { return; }
      if left == 0 {
        pool.FailCreation(t);
        return;
      }
      pool.Create(t);
      pool.FinishWarm(t);
      left := left - 1;
    }
  }

  lemma NoneBusy(pool: Pool)
    requires pool.Valid() && pool.threads == map[] && pool.leases == {}
    ensures pool.leased == 0 && pool.creating == 0 && pool.min <= pool.max
  {
    assert Those(map[], true) == {} && Those(map[], false) == {};
  }

  // ----- every interleaving

  datatype Step =
    | Tick(ms: nat)
    | Acquire(t: Thread)
    | FinishValidation(t: Thread, valid: bool)
    | Create(t: Thread)
    | FailCreation(t: Thread)
    | FinishCreation(t: Thread)
    | Release(t: Thread, r: Res)
    | DestroyLeased(t: Thread, r: Res)
    | Dispose(t: Thread)
    | Destroy(t: Thread)
    | Reap(t: Thread)

  /** What a step makes of the pool. A step to which its thread has not come is none. */
  ghost predicate Stepped(s: Step, max: nat, min: nat, idleTimeout: int, was: PoolState, now: PoolState) {
    match s
    case Tick(ms) => now == was.(clock := was.clock + ms)
    case Acquire(t) =>
      if t in was.threads || was.destroyed then now == was
      else if was.idle != [] then
        var n := |was.idle| - 1;
        now == was.(idle := was.idle[..n], leased := was.leased + 1,
                    threads := was.threads[t := Validating(was.idle[n].resource)])
      else if was.leased + was.creating < max then
        now == was.(creating := was.creating + 1, threads := was.threads[t := Creating])
      else now == was
    case FinishValidation(t, valid) =>
      if t !in was.threads || !was.threads[t].Validating? then now == was
      else if valid && !was.destroyed then
        now == was.(leases := was.leases + {was.threads[t].r}, threads := was.threads - {t})
      else
        now == was.(leased := was.leased - 1, threads := was.threads[t := Disposing([was.threads[t].r])])
    case Create(t) =>
      if t !in was.threads || !was.threads[t].Creating? then now == was
      else now == was.(made := was.made + 1, threads := was.threads[t := Created(Res(was.made))])
    case FailCreation(t) =>
      if t !in was.threads || !was.threads[t].Creating? then now == was
      else now == was.(creating := was.creating - 1, threads := was.threads - {t})
    case FinishCreation(t) =>
      if t !in was.threads || !was.threads[t].Created? then now == was
      else if was.destroyed then
        now == was.(creating := was.creating - 1, threads := was.threads[t := Disposing([was.threads[t].r])])
      else
        now == was.(creating := was.creating - 1, leased := was.leased + 1,
                    leases := was.leases + {was.threads[t].r}, threads := was.threads - {t})
    case Release(t, r) =>
      if t in was.threads || r !in was.leases then now == was
      else if was.destroyed then
        now == was.(leased := was.leased - 1, leases := was.leases - {r}, threads := was.threads[t := Disposing([r])])
      else
        now == was.(leased := was.leased - 1, leases := was.leases - {r}, idle := was.idle + [IdleEntry(r, was.clock)])
    case DestroyLeased(t, r) =>
      if t in was.threads || r !in was.leases then now == was
      else
        now == was.(leased := was.leased - 1, leases := was.leases - {r}, threads := was.threads[t := Disposing([r])])
    case Dispose(t) =>
      if t !in was.threads || !was.threads[t].Disposing? then now == was
      else
        var rs := was.threads[t].rs;
        if rs == [] then now == was.(threads := was.threads - {t})
        else now == was.(gone := was.gone + [rs[0]], threads := was.threads[t := Disposing(rs[1..])])
    case Destroy(t) =>
      if t in was.threads || was.destroyed then now == was
      else now == was.(destroyed := true, idle := [], threads := was.threads[t := Disposing(Resources(was.idle))])
    case Reap(t) =>
      if t in was.threads || was.destroyed then now == was
      else
        var n := |was.idle| - |now.idle|;
        && 0 <= n <= |was.idle| && Expired(was.idle, was.clock, min, idleTimeout, n)
        && now == was.(idle := was.idle[n..], threads := was.threads[t := Disposing(Resources(was.idle[..n]))])
  }

  /** The first `n` have timed out; as many as have, or as leave `min`. */
  ghost predicate Expired(idle: seq<IdleEntry>, clock: int, min: nat, idleTimeout: int, n: nat)
    requires n <= |idle|
  {
    && (forall i | 0 <= i < n :: clock - idle[i].lastUsed >= idleTimeout)
    && (n > 0 ==> |idle| - n >= min)
    && (n < |idle| && |idle| - n > min ==> clock - idle[n].lastUsed < idleTimeout)
  }

  /** The states of the pool before, between and after the steps. */
  ghost predicate Runs(schedule: seq<Step>, max: nat, min: nat, idleTimeout: int, states: seq<PoolState>) {
    && |states| == |schedule| + 1
    && forall i | 0 <= i < |schedule| :: Stepped(schedule[i], max, min, idleTimeout, states[i], states[i + 1])
  }

  /** What a step does to the resources as a user sees them: a lease goes to one that was neither leased nor
      gone, and none is taken away but by the step that gives it back. */
  ghost predicate Moves(s: Step, was: Whereabouts, now: Whereabouts) {
    && was.gone <= now.gone
    && match s
       case FinishValidation(_, _) => now.leased == was.leased || Lends(was, now)
       case FinishCreation(_) => now.leased == was.leased || Lends(was, now)
       case Release(_, r) => now.leased == was.leased || now.leased == was.leased - {r}
       case DestroyLeased(_, r) =>
         now == was || (now.leased == was.leased - {r} && r in now.gone && now.idle == was.idle)
       case _ => now.leased == was.leased
  }

  /** One step, if its thread has come to it. */
  method Take(pool: Pool, s: Step)
    requires pool.Valid()
    modifies pool
    ensures pool.Valid() && Moves(s, old(pool.Tells()), pool.Tells())
    ensures Stepped(s, pool.max, pool.min, pool.idleTimeout, old(pool.State()), pool.State())
  {
    hide Moves, Stepped, Placed, Pool.Counted, Pool.Ordered, Told;
    ghost var was, places := pool.State(), pool.places;
    Turn(pool, s);
    SteppedMoves(s, pool.max, pool.min, pool.idleTimeout, was, pool.State(), places);
  }

  method Turn(pool: Pool, s: Step)
    requires pool.Valid()
    modifies pool
    ensures pool.Valid()
    ensures Stepped(s, pool.max, pool.min, pool.idleTimeout, old(pool.State()), pool.State())
  {
    hide Placed, Those, Resources, Held, Pool.Counted, Pool.Ordered;
    var threads := pool.threads;
    match s {
      case Tick(ms) => pool.Tick(ms);
      case Acquire(t) =>
        if t !in threads { var _ := pool.Acquire(t); }
      case FinishValidation(t, valid) =>
        if t in threads && threads[t].Validating? { var _ := pool.FinishValidation(t, valid); }
      case Create(t) =>
        if t in threads && threads[t].Creating? { pool.Create(t); }
      case FailCreation(t) =>
        if t in threads && threads[t].Creating? { pool.FailCreation(t); }
      case FinishCreation(t) =>
        if t in threads && threads[t].Created? { var _ := pool.FinishCreation(t); }
      case Release(t, r) =>
        if t !in threads && r in pool.leases { pool.Release(t, r); }
      case DestroyLeased(t, r) =>
        if t !in threads && r in pool.leases { pool.DestroyLeased(t, r); }
      case Dispose(t) =>
        if t in threads && threads[t].Disposing? { pool.Dispose(t); }
      case Destroy(t) =>
        if t !in threads { pool.Destroy(t); }
      case Reap(t) =>
        if t !in threads { var _ := pool.Reap(t); }
    }
  }

  /** Whatever a thread goes on to, what is lost stays lost. */
  lemma LostAlong(was: PoolState, now: PoolState, t: Thread)
    requires t in was.threads ==> !was.threads[t].Disposing?
    requires now.gone == was.gone
    requires now.threads == was.threads || now.threads == was.threads - {t}
             || (t in now.threads && now.threads == was.threads[t := now.threads[t]])
    ensures Told(was.idle, was.leases, was.gone, was.threads).gone
         <= Told(now.idle, now.leases, now.gone, now.threads).gone
  {
    LostStays(was.idle, was.leases, was.gone, was.threads, now.idle, now.leases, t,
              if t in now.threads then now.threads[t] else Creating);
  }

  /** What a step makes of the pool, as its users see it. */
  lemma SteppedMoves(s: Step, max: nat, min: nat, idleTimeout: int, was: PoolState, now: PoolState,
                     places: map<Res, Place>)
    requires Placed(was.idle, was.leases, was.gone, was.threads, places)
    requires Stepped(s, max, min, idleTimeout, was, now)
    ensures Moves(s, Told(was.idle, was.leases, was.gone, was.threads),
                  Told(now.idle, now.leases, now.gone, now.threads))
  {
    hide Placed, Resources, Held, Told, Doomed, Checked, Lends, Expired;
    var idle, leases, gone, threads := was.idle, was.leases, was.gone, was.threads;
    match s
    case Tick(_) =>
    case Acquire(t) =>
      if t !in threads { LostAlong(was, now, t); }
    case FinishValidation(t, _) =>
      if t in threads && threads[t].Validating? {
        LeaseLends(idle, leases, gone, threads, places, t, threads[t].r);
        LostAlong(was, now, t);
      }
    case Create(t) =>
      if t in threads && threads[t].Creating? { LostAlong(was, now, t); }
    case FailCreation(t) =>
      if t in threads && threads[t].Creating? { LostAlong(was, now, t); }
    case FinishCreation(t) =>
      if t in threads && threads[t].Created? {
        LeaseLends(idle, leases, gone, threads, places, t, threads[t].r);
        LostAlong(was, now, t);
      }
    case Release(t, r) =>
      if t !in threads { assert threads - {t} == threads; LostAlong(was, now, t); }
    case DestroyLeased(t, r) =>
      if t !in threads && r in leases { DestroyLoses(idle, leases, gone, threads, t, r); }
    case Dispose(t) =>
      if t in threads && threads[t].Disposing? { DisposalKeeps(idle, leases, gone, threads, t); }
    case Destroy(t) =>
      if t !in threads { LostAlong(was, now, t); }
    case Reap(t) =>
      if t !in threads { LostAlong(was, now, t); }
  }

  method Play(pool: Pool, schedule: seq<Step>) returns (ghost states: seq<PoolState>)
    requires pool.Valid()
    modifies pool
    ensures pool.Valid() && Runs(schedule, pool.max, pool.min, pool.idleTimeout, states)
    ensures states[0] == old(pool.State()) && states[|schedule|] == pool.State()
  {
    hide Pool.Valid, Stepped, Moves;
    states := [pool.State()];
    for i := 0 to |schedule|
      invariant pool.Valid() && |states| == i + 1 && states[0] == old(pool.State()) && states[i] == pool.State()
      invariant forall k | 0 <= k < i ::
                  Stepped(schedule[k], pool.max, pool.min, pool.idleTimeout, states[k], states[k + 1])
    {
      Take(pool, schedule[i]);
      states := states + [pool.State()];
    }
  }

  /** Every step of the schedule is taken in turn. Whatever it is, the bound holds, every resource is in
      one place and is handed to destruction at most once, and a destroyed pool keeps nothing. */
  method Interleave(max: nat, min: nat, idleTimeout: int, warm: nat, schedule: seq<Step>)
    returns (pool: Pool, ghost states: seq<PoolState>)
    requires max > 0
    ensures pool.Valid() && pool.max == max && pool.min == (if min < max then min else max)
    ensures Runs(schedule, max, pool.min, idleTimeout, states) && pool.State() == states[|schedule|]
    ensures states[0].threads == map[] && !states[0].destroyed
            && |states[0].idle| == if warm < pool.min then warm else pool.min
    ensures |pool.idle| + pool.leased + pool.creating <= max
    ensures NoRepeat(pool.gone)
    ensures forall r: Res :: r.id < pool.made <==>
              || r in Resources(pool.idle) || r in pool.leases || r in pool.gone
              || exists t: Thread :: t in pool.threads && r in Held(pool.threads[t])
    ensures pool.destroyed ==> pool.idle == []
  {
    hide Runs, Stepped, Resources, Held, NoRepeat, Those;
    pool := new Pool(max, min, idleTimeout);
    WarmMinimum(pool, Thread(0), warm);
    states := Play(pool, schedule);
    NoneLost(pool);
  }

  /** A resource that was ever made is idle, leased, seen by one thread, or handed to destruction. */
  lemma NoneLost(pool: Pool)
    requires pool.Valid()
    ensures forall r: Res :: r.id < pool.made <==>
              || r in Resources(pool.idle) || r in pool.leases || r in pool.gone
              || exists t: Thread :: t in pool.threads && r in Held(pool.threads[t])
  {
    forall r
      ensures r in pool.places <==>
                || r in Resources(pool.idle) || r in pool.leases || r in pool.gone
                || exists t: Thread :: t in pool.threads && r in Held(pool.threads[t])
    {
      if r in pool.places && pool.places[r].WithThread? {
        assert pool.places[r].t in pool.threads;
      }
    }
  }

  lemma LastIdle(idle: seq<IdleEntry>, leases: set<Res>, gone: seq<Res>, threads: map<Thread, Activity>,
                 places: map<Res, Place>, t: Thread)
    requires Placed(idle, leases, gone, threads, places) && t !in threads && idle != []
    ensures var r := idle[|idle| - 1].resource;
            r in places && Placed(idle[..|idle| - 1], leases, gone, threads[t := Validating(r)],
                                  places[r := WithThread(t)])
  {
    var n, r := |idle| - 1, idle[|idle| - 1].resource;
    Parts(idle, n);
    assert Resources(idle[n..]) == [r];
    assert r in Resources(idle[n..]) && r in Resources(idle);
    IdleToThread(idle, leases, gone, threads, places, idle[..n], t, Validating(r));
    assert (map x | x in places :: if x in Held(Validating(r)) then WithThread(t) else places[x])
        == places[r := WithThread(t)];
  }

  lemma Parts(idle: seq<IdleEntry>, n: nat)
    requires n <= |idle| && NoRepeat(Resources(idle))
    ensures NoRepeat(Resources(idle[..n])) && NoRepeat(Resources(idle[n..]))
    ensures forall r :: r in Resources(idle) <==> r in Resources(idle[..n]) || r in Resources(idle[n..])
    ensures forall r :: !(r in Resources(idle[..n]) && r in Resources(idle[n..]))
  {
    assert Resources(idle) == Resources(idle[..n]) + Resources(idle[n..]);
  }

  lemma AllIdle(idle: seq<IdleEntry>, leases: set<Res>, gone: seq<Res>, threads: map<Thread, Activity>,
                places: map<Res, Place>, t: Thread)
    requires Placed(idle, leases, gone, threads, places) && t !in threads
    ensures var rs := Resources(idle);
            Placed([], leases, gone, threads[t := Disposing(rs)],
                   map r | r in places :: if r in rs then WithThread(t) else places[r])
  {
    assert Resources([]) == [];
    IdleToThread(idle, leases, gone, threads, places, [], t, Disposing(Resources(idle)));
  }

  lemma OldestIdle(idle: seq<IdleEntry>, leases: set<Res>, gone: seq<Res>, threads: map<Thread, Activity>,
                   places: map<Res, Place>, t: Thread, n: nat)
    requires Placed(idle, leases, gone, threads, places) && t !in threads && n <= |idle|
    ensures var rs := Resources(idle[..n]);
            Placed(idle[n..], leases, gone, threads[t := Disposing(rs)],
                   map r | r in places :: if r in rs then WithThread(t) else places[r])
  {
    Parts(idle, n);
    IdleToThread(idle, leases, gone, threads, places, idle[n..], t, Disposing(Resources(idle[..n])));
  }
}
