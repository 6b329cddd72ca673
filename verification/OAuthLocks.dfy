/** The registry of weak per-channel refresh locks, as a transition system over
    any number of tasks with explicit lock identities and reference counts. */
module OAuthLocks {

  type Channel = nat
  type Lock = nat
  type Task = nat

  /** A task's strong reference to a lock, and whether it holds the guard. */
  datatype Seat = Seat(channel: Channel, lock: Lock, holding: bool)

  /** `registry` maps a channel to a weak reference, `strong` counts the strong
      references of each lock, `holder` says which one is inside each mutex. */
  datatype Table = Table(registry: map<Channel, Lock>, strong: map<Lock, nat>, next: Lock)
  datatype Locks = Locks(table: Table, holder: map<Lock, Task>, seats: map<Task, Seat>)

  function Strong(t: Table, l: Lock): nat {
    if l in t.strong then t.strong[l] else 0
  }

  /** Entries whose lock somebody still references. */
  function Live(t: Table): map<Channel, Lock> {
    map c | c in t.registry && Strong(t, t.registry[c]) > 0 :: t.registry[c]
  }

  /** `oauth_refresh_lock`: prune, upgrade the live entry or make a new lock. */
  function Looked(t: Table, c: Channel): (Table, Lock) {
    var live := Live(t);
    if c in live then (t.(registry := live, strong := t.strong[live[c] := Strong(t, live[c]) + 1]), live[c])
    else (Table(live[c := t.next], t.strong[t.next := 1], t.next + 1), t.next)
  }

  class LockRegistry {
    var table: Table

    constructor ()
      ensures table == Table(map[], map[], 0)
    {
      table := Table(map[], map[], 0);
    }

    /** The lookup, done while the registry mutex is held. */
    method OauthRefreshLock(channel: Channel) returns (lock: Lock)
      modifies this
      ensures (table, lock) == Looked(old(table), channel)
    {
      table := table.(registry := Live(table));
      if channel in table.registry {
        lock := table.registry[channel];
        table := table.(strong := table.strong[lock := Strong(table, lock) + 1]);
      } else {
        lock := table.next;
        table := Table(table.registry[channel := lock], table.strong[lock := 1], lock + 1);
      }
    }
  }

  // -------------------------------------------------------------------- steps

  datatype Event =
    | Enter(task: Task, channel: Channel)
    | Acquire(task: Task)
    | Release(task: Task)
    | Drop(task: Task)

  predicate Enabled(s: Locks, e: Event) {
    match e
    case Enter(t, _) => t !in s.seats
    case Acquire(t) => t in s.seats && !s.seats[t].holding && s.seats[t].lock !in s.holder
    case Release(t) => t in s.seats && s.seats[t].holding
    case Drop(t) => t in s.seats && !s.seats[t].holding
  }

  function Step(s: Locks, e: Event): Locks
    requires Enabled(s, e)
  {
    match e
    case Enter(t, c) =>
      var (table, lock) := Looked(s.table, c);
      Locks(table, s.holder, s.seats[t := Seat(c, lock, false)])
    case Acquire(t) =>
      s.(holder := s.holder[s.seats[t].lock := t], seats := s.seats[t := s.seats[t].(holding := true)])
    case Release(t) =>
      s.(holder := s.holder - {s.seats[t].lock}, seats := s.seats[t := s.seats[t].(holding := false)])
    case Drop(t) =>
      var l := s.seats[t].lock;
      s.(table := s.table.(strong := s.table.strong[l := if Strong(s.table, l) > 0 then Strong(s.table, l) - 1 else 0]),
         seats := s.seats - {t})
  }

  const Init := Locks(Table(map[], map[], 0), map[], map[])

  function Run(events: seq<Event>): Locks {
    if events == [] then Init
    else
      var s, e := Run(events[..|events| - 1]), events[|events| - 1];
      if Enabled(s, e) then Step(s, e) else s
  }

  // ---------------------------------------------------------------- invariant

  ghost function Users(s: Locks, l: Lock): set<Task> {
    set t | t in s.seats && s.seats[t].lock == l
  }

  ghost predicate Counted(s: Locks) {
    forall l :: Strong(s.table, l) == |Users(s, l)|
  }

  ghost predicate Registered(s: Locks) {
    && (forall t | t in s.seats :: s.seats[t].channel in s.table.registry
                                   && s.table.registry[s.seats[t].channel] == s.seats[t].lock)
    && (forall c | c in s.table.registry :: s.table.registry[c] < s.table.next)
    && (forall c, d | c in s.table.registry && d in s.table.registry ::
          s.table.registry[c] == s.table.registry[d] ==> c == d)
  }

  ghost predicate Guarded(s: Locks) {
    && (forall t | t in s.seats && s.seats[t].holding ::
          s.seats[t].lock in s.holder && s.holder[s.seats[t].lock] == t)
    && (forall l | l in s.holder :: s.holder[l] in s.seats && s.seats[s.holder[l]].lock == l
                                    && s.seats[s.holder[l]].holding)
  }

  ghost predicate Inv(s: Locks) {
    Counted(s) && Registered(s) && Guarded(s)
  }

  /** A seated task keeps its lock's count positive, so pruning spares it. */
  lemma SeatedIsLive(s: Locks, t: Task)
    requires Inv(s) && t in s.seats
    ensures Strong(s.table, s.seats[t].lock) > 0
    ensures s.seats[t].channel in Live(s.table)
  {
    assert t in Users(s, s.seats[t].lock);
  }

  lemma EnterKeepsCount(s: Locks, t: Task, c: Channel)
    requires Inv(s) && t !in s.seats
    ensures Counted(Step(s, Enter(t, c)))
  {
    NobodyAtNext(s);
    forall l ensures Strong(Looked(s.table, c).0, l) == |Users(Step(s, Enter(t, c)), l)| {
      CountAfterEnter(s, t, c, l);
    }
  }

  lemma CountAfterEnter(s: Locks, t: Task, c: Channel, l: Lock)
    requires Counted(s) && t !in s.seats && Users(s, s.table.next) == {}
    ensures Strong(Looked(s.table, c).0, l) == |Users(Step(s, Enter(t, c)), l)|
  {
    var (table, lock) := Looked(s.table, c);
    var next := Step(s, Enter(t, c));
    assert Strong(s.table, l) == |Users(s, l)|;
    if l == lock {
      assert Users(next, l) == Users(s, l) + {t};
    } else {
      assert Users(next, l) == Users(s, l);
    }
  }

  lemma NobodyAtNext(s: Locks)
    requires Registered(s)
    ensures Users(s, s.table.next) == {}
  {
  }

  lemma LookupKeepsRegistry(s: Locks, c: Channel)
    requires Registered(s)
    ensures var (table, lock) := Looked(s.table, c);
            && c in table.registry && table.registry[c] == lock
            && (forall d | d in table.registry :: table.registry[d] < table.next)
            && (forall d, d' | d in table.registry && d' in table.registry ::
                  table.registry[d] == table.registry[d'] ==> d == d')
            && (forall d | d in Live(s.table) :: d in table.registry && table.registry[d] == s.table.registry[d])
  {
  }

  lemma EnterKeepsRegistry(s: Locks, t: Task, c: Channel)
    requires Inv(s) && t !in s.seats
    ensures Registered(Step(s, Enter(t, c)))
  {
    LookupKeepsRegistry(s, c);
    var next := Step(s, Enter(t, c));
    forall u | u in next.seats
      ensures next.seats[u].channel in next.table.registry
      ensures next.table.registry[next.seats[u].channel] == next.seats[u].lock
    {
      if u != t { SeatedIsLive(s, u); }
    }
  }

  lemma DropKeepsCount(s: Locks, t: Task)
    requires Inv(s) && Enabled(s, Drop(t))
    ensures Counted(Step(s, Drop(t)))
  {
    var next := Step(s, Drop(t));
    var lock := s.seats[t].lock;
    forall l ensures Strong(next.table, l) == |Users(next, l)| {
      if l == lock {
        assert Users(next, l) == Users(s, l) - {t} && t in Users(s, l);
      } else {
        assert Users(next, l) == Users(s, l);
      }
    }
  }

  /** Taking or releasing the guard moves no reference. */
  lemma GuardKeepsReferences(s: Locks, next: Locks)
    requires Counted(s) && Registered(s) && next.table == s.table && next.seats.Keys == s.seats.Keys
    requires forall t | t in s.seats ::
               next.seats[t].lock == s.seats[t].lock && next.seats[t].channel == s.seats[t].channel
    ensures Counted(next) && Registered(next)
  {
    forall l ensures Users(next, l) == Users(s, l) { }
  }

  lemma AcquireKeepsGuard(s: Locks, t: Task)
    requires Guarded(s) && Enabled(s, Acquire(t))
    ensures Guarded(Step(s, Acquire(t)))
  {
  }

  lemma ReleaseKeepsGuard(s: Locks, t: Task)
    requires Guarded(s) && Enabled(s, Release(t))
    ensures Guarded(Step(s, Release(t)))
  {
  }

  lemma EnterKeepsGuard(s: Locks, t: Task, c: Channel)
    requires Guarded(s) && t !in s.seats
    ensures Guarded(Step(s, Enter(t, c)))
  {
  }

  lemma DropKeepsGuard(s: Locks, t: Task)
    requires Guarded(s) && Enabled(s, Drop(t))
    ensures Guarded(Step(s, Drop(t)))
  {
  }

  lemma DropKeepsRegistry(s: Locks, t: Task)
    requires Registered(s) && Enabled(s, Drop(t))
    ensures Registered(Step(s, Drop(t)))
  {
  }

  lemma StepKeeps(s: Locks, e: Event)
    requires Inv(s) && Enabled(s, e)
    ensures Inv(Step(s, e))
  {
    match e
    case Enter(t, c) =>
      EnterKeepsCount(s, t, c);
      EnterKeepsRegistry(s, t, c);
      EnterKeepsGuard(s, t, c);
    case Acquire(t) =>
      AcquireKeepsReferences(s, t);
      AcquireKeepsGuard(s, t);
    case Release(t) =>
      ReleaseKeepsReferences(s, t);
      ReleaseKeepsGuard(s, t);
    case Drop(t) =>
      DropKeepsCount(s, t);
      DropKeepsRegistry(s, t);
      DropKeepsGuard(s, t);
  }

  lemma AcquireKeepsReferences(s: Locks, t: Task)
    requires Inv(s) && Enabled(s, Acquire(t))
    ensures Counted(Step(s, Acquire(t))) && Registered(Step(s, Acquire(t)))
  {
    GuardKeepsReferences(s, Step(s, Acquire(t)));
  }

  lemma ReleaseKeepsReferences(s: Locks, t: Task)
    requires Inv(s) && Enabled(s, Release(t))
    ensures Counted(Step(s, Release(t))) && Registered(Step(s, Release(t)))
  {
    GuardKeepsReferences(s, Step(s, Release(t)));
  }

  lemma InitInv()
    ensures Inv(Init)
  {
    assert forall l :: Users(Init, l) == {};
  }

  lemma {:induction false} RunKeeps(events: seq<Event>)
    ensures Inv(Run(events))
  {
    if events == [] {
      InitInv();
    } else {
      var s, e := Run(events[..|events| - 1]), events[|events| - 1];
      RunKeeps(events[..|events| - 1]);
      if Enabled(s, e) { StepKeeps(s, e); }
    }
  }

  // ------------------------------------------------------------- main results

  /** Through any run of lookups, acquires, releases and drops, all strong
      references to a channel's lock are to one object, the registered one,
      whose count is the number of its users. */
  lemma OneLockPerChannel(events: seq<Event>, t: Task, u: Task)
    requires var s := Run(events); t in s.seats && u in s.seats && s.seats[t].channel == s.seats[u].channel
    ensures var s := Run(events);
            && s.seats[t].channel in s.table.registry
            && s.seats[t].lock == s.seats[u].lock == s.table.registry[s.seats[t].channel]
            && Strong(s.table, s.seats[t].lock) == |Users(s, s.seats[t].lock)|
  {
    RunKeeps(events);
  }

  /** At most one task per channel is inside the refresh section. */
  lemma OneHolderPerChannel(s: Locks, t: Task, u: Task)
    requires Inv(s) && t in s.seats && u in s.seats && s.seats[t].holding && s.seats[u].holding
    requires s.seats[t].channel == s.seats[u].channel
    ensures t == u
  {
  }

  lemma MutualExclusion(events: seq<Event>, t: Task, u: Task)
    requires var s := Run(events);
             && t in s.seats && u in s.seats && s.seats[t].holding && s.seats[u].holding
             && s.seats[t].channel == s.seats[u].channel
    ensures t == u
  {
    RunKeeps(events);
    OneHolderPerChannel(Run(events), t, u);
  }

  /** The table refines one plain mutex per channel: a waiting task can acquire
      exactly when no task of its own channel is inside. */
  lemma RefinesChannelMutex(events: seq<Event>, t: Task)
    requires var s := Run(events); t in s.seats && !s.seats[t].holding
    ensures var s := Run(events);
            Enabled(s, Acquire(t)) <==>
            !exists u :: u in s.seats && s.seats[u].holding && s.seats[u].channel == s.seats[t].channel
  {
    RunKeeps(events);
    var s := Run(events);
    if s.seats[t].lock in s.holder {
      var u := s.holder[s.seats[t].lock];
      assert s.seats[u].holding && s.seats[u].channel == s.seats[t].channel;
    }
  }

  /** Once the last reference is dropped the next lookup makes a new lock. */
  lemma UnusedLockIsReplaced(events: seq<Event>, c: Channel)
    requires forall t | t in Run(events).seats :: Run(events).seats[t].channel != c
    ensures var s := Run(events);
            Looked(s.table, c).1 == s.table.next && Users(s, s.table.next) == {}
  {
    RunKeeps(events);
    var s := Run(events);
    NobodyAtNext(s);
    if c in s.table.registry {
      assert Users(s, s.table.registry[c]) == {} by {
        forall t | t in s.seats ensures s.seats[t].lock != s.table.registry[c] { }
      }
    }
  }

  /** In every run a lookup leaves in the registry the channel it was for and the
      channels that some task uses, and no other: dead entries do not pile up. */
  lemma RegistryExact(events: seq<Event>, t: Task, c: Channel, d: Channel)
    requires t !in Run(events).seats
    ensures d in Run(events + [Enter(t, c)]).table.registry <==>
            d == c || exists u :: u in Run(events).seats && Run(events).seats[u].channel == d
  {
    assert (events + [Enter(t, c)])[..|events|] == events;
    RunKeeps(events);
    LiveExact(Run(events), d);
  }

  lemma LiveExact(s: Locks, d: Channel)
    requires Inv(s)
    ensures d in Live(s.table) <==> exists u :: u in s.seats && s.seats[u].channel == d
  {
    if d in s.table.registry {
      var l := s.table.registry[d];
      assert Strong(s.table, l) == |Users(s, l)|;
      if Strong(s.table, l) > 0 {
        var u :| u in Users(s, l);
        assert s.table.registry[s.seats[u].channel] == l;
      }
    }
    if u :| u in s.seats && s.seats[u].channel == d {
      assert u in Users(s, s.table.registry[d]);
    }
  }
}
