/** The usage handler as a protocol over two stores: it records a batch in the
    usage sink, settles the accepted events in the management store, and
    discards them again when that did not commit, so that the gateway's retry is
    not taken for a duplicate. Batches, retries and log cleanups interleave. */
module Settlement {
  import opened Prelude
  import opened UsageSink

  /** The ids a handler has recorded and is settling; `failed` once the
      management store refused them. */
  datatype Batch = Batch(ids: set<string>, failed: bool)

  /** `settled` counts the settlements each id got. `lost` are the ids whose
      handler died, or could not discard. `floor` is the latest second before
      which the log was cleaned up. */
  datatype State = State(log: seq<UsageEvent>, work: map<nat, Batch>, settled: multiset<string>,
                         lost: multiset<string>, floor: int)

  datatype Event =
    | Record(task: nat, batch: seq<UsageEvent>)
    | Settled(task: nat)
    | Refused(task: nat)
    | Discarded(task: nat)
    | HandlerLost(task: nat)
    | QuotasApplied(quotas: seq<EventQuota>)
    | CleanedUp(target: int)

  function Start(floor: int): State {
    State([], map[], multiset{}, multiset{}, floor)
  }

  /** A retry resends the event it retries, so an id has one creation time. */
  predicate Resent(created: string -> int, batch: seq<UsageEvent>) {
    forall i :: 0 <= i < |batch| ==> batch[i].createdMs == created(batch[i].id)
  }

  predicate Enabled(s: State, created: string -> int, e: Event) {
    match e
    case Record(task, batch) => task !in s.work && Resent(created, batch)
    case Settled(task) => task in s.work && !s.work[task].failed
    case Refused(task) => task in s.work && !s.work[task].failed
    case Discarded(task) => task in s.work && s.work[task].failed
    case HandlerLost(task) => task in s.work
    case QuotasApplied(quotas) => true
    case CleanedUp(target) => true
  }

  function RecordStep(s: State, task: nat, batch: seq<UsageEvent>): State {
    var accepted := Accepted(Ids(s.log), batch);
    s.(log := s.log + accepted,
       work := if accepted == [] then s.work else s.work[task := Batch(Ids(accepted), false)])
  }

  function PricedLog(log: seq<UsageEvent>, quotas: seq<EventQuota>): seq<UsageEvent> {
    seq(|log|, i requires 0 <= i < |log| => Priced(log[i], quotas))
  }

  function Step(s: State, created: string -> int, e: Event): State
    requires Enabled(s, created, e)
  {
    match e
    case Record(task, batch) => RecordStep(s, task, batch)
    case Settled(task) =>
      s.(work := s.work - {task}, settled := s.settled + multiset(s.work[task].ids))
    case Refused(task) => s.(work := s.work[task := Batch(s.work[task].ids, true)])
    case Discarded(task) => s.(work := s.work - {task}, log := Without(s.log, s.work[task].ids))
    case HandlerLost(task) => s.(work := s.work - {task}, lost := s.lost + multiset(s.work[task].ids))
    case QuotasApplied(quotas) => s.(log := PricedLog(s.log, quotas))
    case CleanedUp(target) =>
      s.(log := Since(s.log, target), floor := if target > s.floor then target else s.floor)
  }

  function Run(created: string -> int, floor: int, events: seq<Event>): Option<State> {
    if events == [] then Some(Start(floor))
    else
      var before := Run(created, floor, events[..|events| - 1]);
      var e := events[|events| - 1];
      if before.Some? && Enabled(before.value, created, e) then Some(Step(before.value, created, e)) else None
  }

  /** The second in which an id's event was created. */
  function Born(created: string -> int, x: string): int {
    Second(UsageEvent(x, created(x), None))
  }

  /** Since the id was last recorded, a cleanup has passed its second. */
  predicate Cleaned(created: string -> int, events: seq<Event>, x: string) {
    events != [] && CleanedBy(created, events[|events| - 1], x, Cleaned(created, events[..|events| - 1], x))
  }

  predicate CleanedBy(created: string -> int, e: Event, x: string, before: bool) {
    if e.CleanedUp? && Born(created, x) < e.target then true
    else if e.Record? && x in Ids(e.batch) then false
    else before
  }

  // ------------------------------------------------------------- one id in a run

  function Holders(s: State, x: string): set<nat> {
    set t | t in s.work && x in s.work[t].ids
  }

  /** An id that a handler is settling, that was settled, or that was lost. */
  predicate Taken(s: State, x: string) {
    x in s.settled || x in s.lost || Holders(s, x) != {}
  }

  /** How often an id counts: settlements it got, handlers settling it, handlers
      that were lost with it. */
  function Claims(s: State, x: string): nat {
    s.settled[x] + s.lost[x] + |Holders(s, x)|
  }

  lemma ClaimsTaken(s: State, x: string)
    ensures Claims(s, x) > 0 <==> Taken(s, x)
  {
    if Holders(s, x) != {} {
      var t :| t in Holders(s, x);
      assert {t} <= Holders(s, x);
      SubsetSize({t}, Holders(s, x));
    }
  }

  lemma SubsetSize(a: set<nat>, b: set<nat>)
    requires a <= b
    ensures |a| <= |b|
  {
    assert b == a + (b - a);
  }

  /** Logged events of an id carry its creation time. */
  predicate Stamped(s: State, created: string -> int) {
    forall i :: 0 <= i < |s.log| ==> s.log[i].createdMs == created(s.log[i].id)
  }

  /** What holds of an id in a run: it counts at most once, and the log has it
      exactly while it is taken and no cleanup has passed. */
  predicate Fine(s: State, cleaned: bool, x: string) {
    Claims(s, x) <= 1 && (x in Ids(s.log) <==> Taken(s, x) && !cleaned)
  }

  /** The event records the id although it is taken, past a cleanup. */
  predicate Repeats(s: State, created: string -> int, before: seq<Event>, e: Event, x: string) {
    e.Record? && x in Ids(e.batch) && Taken(s, x) && Cleaned(created, before, x)
  }

  // ------------------------------------------------------------- step by step

  lemma CleanedNext(created: string -> int, events: seq<Event>, e: Event, x: string)
    ensures Cleaned(created, events + [e], x) == CleanedBy(created, e, x, Cleaned(created, events, x))
  {
    assert (events + [e])[..|events|] == events;
  }

  lemma StepStamped(s: State, created: string -> int, e: Event)
    requires Stamped(s, created) && Enabled(s, created, e)
    ensures Stamped(Step(s, created, e), created)
  {
    var t := Step(s, created, e);
    match e
    case Record(task, batch) =>
      AcceptedExact(Ids(s.log), batch);
      var accepted := Accepted(Ids(s.log), batch);
      forall i | 0 <= i < |accepted| ensures accepted[i].createdMs == created(accepted[i].id) {
        assert accepted[i] in batch;
      }
    case Discarded(task) => WithoutExact(s.log, s.work[task].ids); KeptStamped(s.log, t.log, created);
    case CleanedUp(target) => SinceExact(s.log, target); KeptStamped(s.log, t.log, created);
    case _ =>
  }

  lemma KeptStamped(log: seq<UsageEvent>, kept: seq<UsageEvent>, created: string -> int)
    requires forall i :: 0 <= i < |log| ==> log[i].createdMs == created(log[i].id)
    requires forall e :: e in kept ==> e in log
    ensures forall i :: 0 <= i < |kept| ==> kept[i].createdMs == created(kept[i].id)
  {
    forall i | 0 <= i < |kept| ensures kept[i].createdMs == created(kept[i].id) { assert kept[i] in log; }
  }

  /** Recording takes an id that the log does not have. */
  lemma RecordTakes(s: State, task: nat, batch: seq<UsageEvent>, x: string)
    requires task !in s.work
    ensures var t, fresh' := RecordStep(s, task, batch), x in Ids(batch) && x !in Ids(s.log);
            && (x in Ids(t.log) <==> x in Ids(s.log) || x in Ids(batch))
            && Claims(t, x) == Claims(s, x) + if fresh' then 1 else 0
  {
    var t, accepted := RecordStep(s, task, batch), Accepted(Ids(s.log), batch);
    AcceptedExact(Ids(s.log), batch);
    IdsAppend(s.log, accepted);
    assert accepted == [] ==> x !in Ids(accepted);
    if x in Ids(accepted) {
      assert Holders(t, x) == Holders(s, x) + {task};
    } else {
      assert Holders(t, x) == Holders(s, x);
    }
  }

  /** A handler that ends hands its ids over, or sets them free. */
  lemma EndsHolding(s: State, t: State, task: nat, x: string)
    requires task in s.work && t.work == s.work - {task}
    ensures |Holders(t, x)| == |Holders(s, x)| - if x in s.work[task].ids then 1 else 0
  {
    assert Holders(t, x) == Holders(s, x) - {task};
  }

  lemma DiscardFrees(s: State, created: string -> int, task: nat, x: string)
    requires Enabled(s, created, Discarded(task))
    ensures var t, mine := Step(s, created, Discarded(task)), x in s.work[task].ids;
            && Claims(t, x) == Claims(s, x) - (if mine then 1 else 0)
            && (x in Ids(t.log) <==> x in Ids(s.log) && !mine)
  {
    EndsHolding(s, Step(s, created, Discarded(task)), task, x);
    WithoutExact(s.log, s.work[task].ids);
  }

  lemma CleanupForgets(s: State, created: string -> int, target: int, x: string)
    requires Stamped(s, created)
    ensures x in Ids(Step(s, created, CleanedUp(target)).log) <==> x in Ids(s.log) && Born(created, x) >= target
  {
    SinceExact(s.log, target);
    if x in Ids(s.log) {
      var i :| 0 <= i < |s.log| && s.log[i].id == x;
      assert Second(s.log[i]) == Born(created, x);
      assert s.log[i] in Since(s.log, target) <==> Second(s.log[i]) >= target;
    }
    forall e | e in Since(s.log, target) && e.id == x ensures Second(e) == Born(created, x) {
      var i :| 0 <= i < |s.log| && s.log[i] == e;
    }
  }

  /** Events other than recording and discarding change no id's count and no
      cleanup apart no id's place in the log. */
  lemma OthersKeep(s: State, created: string -> int, e: Event, x: string)
    requires Enabled(s, created, e) && !e.Record? && !e.Discarded?
    ensures var t := Step(s, created, e);
            Claims(t, x) == Claims(s, x) && (!e.CleanedUp? ==> Ids(t.log) == Ids(s.log))
  {
    var t := Step(s, created, e);
    match e
    case Settled(task) => EndsHolding(s, t, task, x);
    case HandlerLost(task) => EndsHolding(s, t, task, x);
    case Refused(task) => assert Holders(t, x) == Holders(s, x);
    case QuotasApplied(quotas) => SameIds(s.log, t.log);
    case CleanedUp(_) =>
  }

  /** An event leaves an id fine if and only if it does not record it again past a
      cleanup. */
  lemma FineExact(s: State, created: string -> int, before: seq<Event>, e: Event, x: string)
    requires Stamped(s, created) && Enabled(s, created, e) && Fine(s, Cleaned(created, before, x), x)
    ensures Fine(Step(s, created, e), Cleaned(created, before + [e], x), x) <==> !Repeats(s, created, before, e, x)
    ensures Repeats(s, created, before, e, x) ==> Claims(Step(s, created, e), x) == 2
  {
    var t := Step(s, created, e);
    CleanedNext(created, before, e, x);
    ClaimsTaken(s, x);
    ClaimsTaken(t, x);
    match e
    case Record(task, batch) => RecordTakes(s, task, batch, x);
    case Discarded(task) => DiscardFrees(s, created, task, x); HeldIsTaken(s, task, x);
    case CleanedUp(target) => OthersKeep(s, created, e, x); CleanupForgets(s, created, target, x);
    case _ => OthersKeep(s, created, e, x);
  }

  lemma HeldIsTaken(s: State, task: nat, x: string)
    requires task in s.work
    ensures x in s.work[task].ids ==> Taken(s, x)
  {
    if x in s.work[task].ids { assert task in Holders(s, x); }
  }

  // -------------------------------------------------------------- whole runs

  lemma RunSnoc(created: string -> int, floor: int, events: seq<Event>, e: Event)
    requires Run(created, floor, events).Some?
    ensures var s := Run(created, floor, events).value;
            Run(created, floor, events + [e])
            == if Enabled(s, created, e) then Some(Step(s, created, e)) else None
  {
    assert (events + [e])[..|events|] == events;
  }

  lemma RunNext(created: string -> int, floor: int, events: seq<Event>, n: nat)
    requires n < |events| && Run(created, floor, events[..n]).Some?
    ensures var s := Run(created, floor, events[..n]).value;
            Run(created, floor, events[..n + 1])
            == if Enabled(s, created, events[n]) then Some(Step(s, created, events[n])) else None
  {
    assert events[..n + 1] == events[..n] + [events[n]];
    RunSnoc(created, floor, events[..n], events[n]);
  }

  lemma {:induction false} PrefixRuns(created: string -> int, floor: int, events: seq<Event>, n: nat)
    requires Run(created, floor, events).Some? && n <= |events|
    ensures Run(created, floor, events[..n]).Some?
    decreases |events|
  {
    if n < |events| {
      PrefixRuns(created, floor, events[..|events| - 1], n);
      assert events[..|events| - 1][..n] == events[..n];
    } else {
      assert events[..n] == events;
    }
  }

  lemma {:induction false} RunStamped(created: string -> int, floor: int, events: seq<Event>)
    requires Run(created, floor, events).Some?
    ensures Stamped(Run(created, floor, events).value, created)
  {
    if events != [] {
      var before := events[..|events| - 1];
      RunStamped(created, floor, before);
      StepStamped(Run(created, floor, before).value, created, events[|events| - 1]);
    }
  }

  predicate RepeatsAt(created: string -> int, floor: int, events: seq<Event>, n: nat, x: string)
    requires n < |events|
  {
    var s := Run(created, floor, events[..n]);
    s.Some? && Repeats(s.value, created, events[..n], events[n], x)
  }

  /** No event of the run records the id again past a cleanup. */
  predicate NoRepeat(created: string -> int, floor: int, events: seq<Event>, x: string) {
    forall n :: 0 <= n < |events| ==> !RepeatsAt(created, floor, events, n, x)
  }

  /** The id counts at most once after the first `n` events. */
  predicate OnceAt(created: string -> int, floor: int, events: seq<Event>, n: nat, x: string)
    requires n <= |events|
  {
    var s := Run(created, floor, events[..n]);
    s.Some? && Claims(s.value, x) <= 1
  }

  ghost predicate FineAt(created: string -> int, floor: int, events: seq<Event>, x: string) {
    var s := Run(created, floor, events);
    s.Some? && Fine(s.value, Cleaned(created, events, x), x)
  }

  lemma FineNext(created: string -> int, floor: int, events: seq<Event>, n: nat, x: string)
    requires Run(created, floor, events).Some? && n < |events| && FineAt(created, floor, events[..n], x)
    ensures Run(created, floor, events[..n + 1]).Some?
    ensures FineAt(created, floor, events[..n + 1], x) <==> !RepeatsAt(created, floor, events, n, x)
    ensures OnceAt(created, floor, events, n + 1, x) <==> !RepeatsAt(created, floor, events, n, x)
  {
    PrefixRuns(created, floor, events, n + 1);
    RunNext(created, floor, events, n);
    RunStamped(created, floor, events[..n]);
    FineExact(Run(created, floor, events[..n]).value, created, events[..n], events[n], x);
    assert events[..n + 1] == events[..n] + [events[n]];
  }

  lemma FineAtStart(created: string -> int, floor: int, events: seq<Event>, x: string)
    ensures FineAt(created, floor, events[..0], x)
  {
    assert events[..0] == [] && Holders(Start(floor), x) == {};
  }

  lemma {:induction false} FineWithoutRepeat(created: string -> int, floor: int, events: seq<Event>, n: nat, x: string)
    requires Run(created, floor, events).Some? && n <= |events| && NoRepeat(created, floor, events, x)
    ensures FineAt(created, floor, events[..n], x)
    decreases n
  {
    if n == 0 {
      FineAtStart(created, floor, events, x);
    } else {
      FineWithoutRepeat(created, floor, events, n - 1, x);
      FineNext(created, floor, events, n - 1, x);
    }
  }

  lemma RunKeeps(created: string -> int, floor: int, events: seq<Event>, x: string)
    requires Run(created, floor, events).Some? && NoRepeat(created, floor, events, x)
    ensures Fine(Run(created, floor, events).value, Cleaned(created, events, x), x)
  {
    FineWithoutRepeat(created, floor, events, |events|, x);
    assert events[..|events|] == events;
  }

  // --------------------------------------------------------------- main results

  /** An id counts at most once at every point of a run, settled, at work and lost
      together, if and only if no event records it again after a cleanup passed
      its second: whatever happens to all other ids. */
  lemma ClaimedOnceExact(created: string -> int, floor: int, events: seq<Event>, x: string)
    requires Run(created, floor, events).Some?
    ensures (forall n :: 0 <= n <= |events| ==> OnceAt(created, floor, events, n, x))
       <==> NoRepeat(created, floor, events, x)
  {
    if NoRepeat(created, floor, events, x) {
      forall n | 0 <= n <= |events| ensures OnceAt(created, floor, events, n, x) {
        FineWithoutRepeat(created, floor, events, n, x);
      }
    }
    if forall n :: 0 <= n <= |events| ==> OnceAt(created, floor, events, n, x) {
      forall n | 0 <= n < |events| ensures !RepeatsAt(created, floor, events, n, x) {
        OnceIsFine(created, floor, events, n, x);
        FineNext(created, floor, events, n, x);
      }
    }
  }

  lemma {:induction false} OnceIsFine(created: string -> int, floor: int, events: seq<Event>, n: nat, x: string)
    requires Run(created, floor, events).Some? && n <= |events|
    requires forall k :: 0 <= k <= |events| ==> OnceAt(created, floor, events, k, x)
    ensures FineAt(created, floor, events[..n], x)
    decreases n
  {
    if n == 0 {
      FineAtStart(created, floor, events, x);
    } else {
      OnceIsFine(created, floor, events, n - 1, x);
      FineNext(created, floor, events, n - 1, x);
    }
  }

  /** So a request that is not recorded again past a cleanup is settled at most
      once, however often the gateway resends it, and whatever other batches hold. */
  lemma SettledAtMostOnce(created: string -> int, floor: int, events: seq<Event>, x: string)
    requires Run(created, floor, events).Some? && NoRepeat(created, floor, events, x)
    ensures Run(created, floor, events).value.settled[x] <= 1
  {
    RunKeeps(created, floor, events, x);
  }

  /** When no handler is at work and none was lost, such a request is in the log
      exactly if it was settled and no cleanup has passed it since. */
  lemma QuietLogIsSettled(created: string -> int, floor: int, events: seq<Event>, x: string)
    requires Run(created, floor, events).Some? && NoRepeat(created, floor, events, x)
    requires var s := Run(created, floor, events).value; s.work == map[] && s.lost == multiset{}
    ensures var s := Run(created, floor, events).value;
            x in Ids(s.log) <==> s.settled[x] == 1 && !Cleaned(created, events, x)
  {
    RunKeeps(created, floor, events, x);
    var s := Run(created, floor, events).value;
    assert Holders(s, x) == {};
  }

  /** Every batch that holds the id came when no cleanup had passed its second. */
  ghost predicate Timely(created: string -> int, floor: int, events: seq<Event>, x: string) {
    forall n :: 0 <= n < |events| && events[n].Record? && x in Ids(events[n].batch) ==>
      var s := Run(created, floor, events[..n]); s.Some? && Born(created, x) >= s.value.floor
  }

  lemma {:induction false} TimelyFloor(created: string -> int, floor: int, events: seq<Event>, n: nat, x: string)
    requires Run(created, floor, events).Some? && Timely(created, floor, events, x) && n <= |events|
    ensures Run(created, floor, events[..n]).Some?
    ensures Cleaned(created, events[..n], x) ==> Born(created, x) < Run(created, floor, events[..n]).value.floor
    decreases n
  {
    PrefixRuns(created, floor, events, n);
    if n > 0 {
      TimelyFloor(created, floor, events, n - 1, x);
      RunNext(created, floor, events, n - 1);
      assert events[..n] == events[..n - 1] + [events[n - 1]];
      CleanedNext(created, events[..n - 1], events[n - 1], x);
    }
  }

  /** In particular when no batch that holds it reaches back before a cleanup. */
  lemma TimelyIsSettledOnce(created: string -> int, floor: int, events: seq<Event>, x: string)
    requires Run(created, floor, events).Some? && Timely(created, floor, events, x)
    ensures NoRepeat(created, floor, events, x) && Run(created, floor, events).value.settled[x] <= 1
  {
    forall n | 0 <= n < |events| ensures !RepeatsAt(created, floor, events, n, x) {
      TimelyFloor(created, floor, events, n, x);
    }
    SettledAtMostOnce(created, floor, events, x);
  }

  // -------------------------------------------------- after a discarded batch

  /** An id the log does not have, and nobody has taken. */
  predicate Free(s: State, x: string) {
    x !in Ids(s.log) && Claims(s, x) == 0
  }

  /** Only recording an id takes it. */
  lemma StaysFree(s: State, created: string -> int, e: Event, x: string)
    requires Free(s, x) && Enabled(s, created, e) && (e.Record? ==> x !in Ids(e.batch))
    ensures Free(Step(s, created, e), x)
  {
    match e
    case Record(task, batch) => RecordTakes(s, task, batch, x);
    case Discarded(task) => DiscardFrees(s, created, task, x);
    case CleanedUp(target) => OthersKeep(s, created, e, x); SinceExact(s.log, target);
    case _ => OthersKeep(s, created, e, x);
  }

  lemma {:induction false} FreeThrough(created: string -> int, floor: int, events: seq<Event>, more: seq<Event>,
                                       x: string)
    requires Run(created, floor, events + more).Some?
    requires Run(created, floor, events).Some? ==> Free(Run(created, floor, events).value, x)
    requires forall i :: 0 <= i < |more| && more[i].Record? ==> x !in Ids(more[i].batch)
    ensures Free(Run(created, floor, events + more).value, x)
    decreases |more|
  {
    if more == [] {
      assert events + more == events;
    } else {
      var front, last := more[..|more| - 1], more[|more| - 1];
      assert (events + more)[..|events + more| - 1] == events + front;
      FreeThrough(created, floor, events, front, x);
      StaysFree(Run(created, floor, events + front).value, created, last, x);
    }
  }

  /** Recording a batch that holds an id new to the log and then settling it
      settles that id once more. */
  lemma RecordThenSettle(created: string -> int, floor: int, events: seq<Event>, task: nat, batch: seq<UsageEvent>,
                         x: string)
    requires Run(created, floor, events).Some? && task !in Run(created, floor, events).value.work
    requires var s := Run(created, floor, events).value; x !in Ids(s.log) && x in Ids(batch) && Resent(created, batch)
    ensures var s, end := Run(created, floor, events).value,
                          Run(created, floor, events + [Record(task, batch)] + [Settled(task)]);
            end.Some? && end.value.settled[x] == s.settled[x] + 1
  {
    var s := Run(created, floor, events).value;
    AcceptedExact(Ids(s.log), batch);
    assert x in Ids(Accepted(Ids(s.log), batch));
    RunSnoc(created, floor, events, Record(task, batch));
    RunSnoc(created, floor, events + [Record(task, batch)], Settled(task));
  }

  /** Once a refused batch was discarded, and whatever happens then short of
      recording the id again (cleanups, other batches, other handlers dying), a
      retry is accepted, and settling it settles the request once. */
  lemma DiscardedIsRetryable(created: string -> int, floor: int, events: seq<Event>, task: nat, more: seq<Event>,
                             x: string, retry: nat, batch: seq<UsageEvent>)
    requires Run(created, floor, events).Some? && NoRepeat(created, floor, events, x)
    requires var s := Run(created, floor, events).value;
             Enabled(s, created, Discarded(task)) && x in s.work[task].ids
    requires Run(created, floor, events + [Discarded(task)] + more).Some?
    requires forall i :: 0 <= i < |more| && more[i].Record? ==> x !in Ids(more[i].batch)
    requires retry !in Run(created, floor, events + [Discarded(task)] + more).value.work
    requires x in Ids(batch) && Resent(created, batch)
    ensures var s := Run(created, floor, events + [Discarded(task)] + more).value;
            && s.settled[x] == 0 && x in Ids(Accepted(Ids(s.log), batch))
            && var end := Run(created, floor, events + [Discarded(task)] + more
                                              + [Record(retry, batch)] + [Settled(retry)]);
               end.Some? && end.value.settled[x] == 1
  {
    var s, all := Run(created, floor, events).value, events + [Discarded(task)] + more;
    RunKeeps(created, floor, events, x);
    RunSnoc(created, floor, events, Discarded(task));
    HeldIsTaken(s, task, x);
    ClaimsTaken(s, x);
    DiscardFrees(s, created, task, x);
    FreeThrough(created, floor, events + [Discarded(task)], more, x);
    AcceptedExact(Ids(Run(created, floor, all).value.log), batch);
    RecordThenSettle(created, floor, all, retry, batch, x);
  }

  // ------------------------------------------------------------- after a cleanup

  /** A resent event of a request that was settled, lost or is being settled is
      accepted again if and only if a cleanup has passed its second since. */
  lemma ResendExact(created: string -> int, floor: int, events: seq<Event>, e: UsageEvent)
    requires Run(created, floor, events).Some? && NoRepeat(created, floor, events, e.id)
    requires Taken(Run(created, floor, events).value, e.id)
    ensures var s := Run(created, floor, events).value;
            Accepted(Ids(s.log), [e]) == if Cleaned(created, events, e.id) then [e] else []
  {
    RunKeeps(created, floor, events, e.id);
    assert [e][1..] == [];
  }

  /** For requests whose batches were timely, that is when the last cleanup went
      past its second. */
  lemma ResendByFloor(created: string -> int, floor: int, events: seq<Event>, e: UsageEvent)
    requires Run(created, floor, events).Some? && Timely(created, floor, events, e.id) && e.createdMs == created(e.id)
    requires Taken(Run(created, floor, events).value, e.id)
    ensures var s := Run(created, floor, events).value;
            Accepted(Ids(s.log), [e]) == if Second(e) < s.floor then [e] else []
  {
    TimelyIsSettledOnce(created, floor, events, e.id);
    ResendExact(created, floor, events, e);
    TimelyFloor(created, floor, events, |events|, e.id);
    assert events[..|events|] == events;
    ClaimsTaken(Run(created, floor, events).value, e.id);
    FloorIsCleaned(created, floor, events, |events|, e.id);
  }

  /** A taken id whose batches were timely was cleaned up once the floor is past. */
  lemma {:induction false} FloorIsCleaned(created: string -> int, floor: int, events: seq<Event>, n: nat, x: string)
    requires Run(created, floor, events).Some? && Timely(created, floor, events, x) && n <= |events|
    ensures Run(created, floor, events[..n]).Some?
    ensures var s := Run(created, floor, events[..n]).value;
            Claims(s, x) > 0 && Born(created, x) < s.floor ==> Cleaned(created, events[..n], x)
    decreases n
  {
    PrefixRuns(created, floor, events, n);
    if n == 0 {
      assert events[..0] == [] && Holders(Start(floor), x) == {};
    } else {
      var s, e := Run(created, floor, events[..n - 1]), events[n - 1];
      FloorIsCleaned(created, floor, events, n - 1, x);
      RunNext(created, floor, events, n - 1);
      assert events[..n] == events[..n - 1] + [e];
      CleanedNext(created, events[..n - 1], e, x);
      match e
      case Record(task, batch) => RecordTakes(s.value, task, batch, x);
      case Discarded(task) => DiscardFrees(s.value, created, task, x);
      case _ => OthersKeep(s.value, created, e, x);
    }
  }

  /** So a settled request can be settled a second time by resending its event
      exactly when a cleanup has passed its second since. */
  lemma SettledTwiceExact(created: string -> int, floor: int, events: seq<Event>, e: UsageEvent, task: nat)
    requires Run(created, floor, events).Some? && NoRepeat(created, floor, events, e.id)
    requires var s := Run(created, floor, events).value; e.id in s.settled && task !in s.work
    requires e.createdMs == created(e.id)
    ensures var end := Run(created, floor, events + [Record(task, [e])] + [Settled(task)]);
            (end.Some? && end.value.settled[e.id] == 2) <==> Cleaned(created, events, e.id)
  {
    var s := Run(created, floor, events).value;
    RunKeeps(created, floor, events, e.id);
    ResendExact(created, floor, events, e);
    assert s.settled[e.id] == 1;
    if Cleaned(created, events, e.id) {
      assert [e][0] in [e] && e.id in Ids([e]);
      RecordThenSettle(created, floor, events, task, [e], e.id);
    } else {
      RunSnoc(created, floor, events, Record(task, [e]));
      RunSnoc(created, floor, events + [Record(task, [e])], Settled(task));
    }
  }

  /** How a handler ends: settling counts each of its ids once as settled, a lost
      handler counts them lost, and after a refusal its discard takes its events, and
      no others, out of the log. */
  lemma HandlerEnds(s: State, created: string -> int, task: nat, x: string)
    requires task in s.work
    ensures Enabled(s, created, HandlerLost(task))
    ensures var t, held := Step(s, created, HandlerLost(task)), if x in s.work[task].ids then 1 else 0;
            t.work == s.work - {task} && t.log == s.log && t.settled == s.settled && t.lost[x] == s.lost[x] + held
    ensures !s.work[task].failed ==>
              && Enabled(s, created, Settled(task)) && Enabled(s, created, Refused(task))
              && var t, held := Step(s, created, Settled(task)), if x in s.work[task].ids then 1 else 0;
                 t.work == s.work - {task} && t.log == s.log && t.lost == s.lost && t.settled[x] == s.settled[x] + held
    ensures s.work[task].failed ==>
              && Enabled(s, created, Discarded(task))
              && var t := Step(s, created, Discarded(task));
                 && t.work == s.work - {task} && t.settled == s.settled && t.lost == s.lost
                 && (x in Ids(t.log) <==> x in Ids(s.log) && x !in s.work[task].ids)
  {
    WithoutExact(s.log, s.work[task].ids);
  }

  /** A refusal keeps the handler at work, with its ids, until its discard. */
  lemma RefusedStillHolds(s: State, created: string -> int, task: nat)
    requires task in s.work && !s.work[task].failed
    ensures var t := Step(s, created, Refused(task));
            && Enabled(t, created, Discarded(task)) && !Enabled(t, created, Settled(task))
            && t.work[task].ids == s.work[task].ids && t.log == s.log
  {
  }

  /** A batch is recorded with the handler that will settle it: the new ids, each
      once; a batch without a new id has no handler. */
  lemma RecordExact(s: State, created: string -> int, task: nat, batch: seq<UsageEvent>, x: string)
    requires Enabled(s, created, Record(task, batch))
    ensures var t := Step(s, created, Record(task, batch));
            && (x in Ids(t.log) <==> x in Ids(s.log) || x in Ids(batch))
            && (task in t.work <==> exists y :: y in Ids(batch) && y !in Ids(s.log))
            && (task in t.work ==> !t.work[task].failed
                                   && (x in t.work[task].ids <==> x in Ids(batch) && x !in Ids(s.log)))
            && t.settled == s.settled && t.lost == s.lost && t.work - {task} == s.work
  {
    var accepted := Accepted(Ids(s.log), batch);
    AcceptedExact(Ids(s.log), batch);
    IdsAppend(s.log, accepted);
    if accepted != [] { assert accepted[0].id in Ids(accepted); }
  }
}
