/** What each step of the refresh decides, in the fields of the records: when a
    task goes upstream, when its rotation is stored and what it stores. */
module OAuthDecisions {
  import opened Prelude
  import opened OAuthRefresh
  import OAuthLocks

  type Task = OAuthLocks.Task
  type Channel = OAuthLocks.Channel

  // ------------------------------------------------------------ when to refresh

  /** A stored credential that can be refreshed: a Codex key with a refresh token,
      or an imported OAuth setting with one. */
  predicate Refreshable(r: Record) {
    || (r.kind == Codex && r.key.CodexKey? && r.key.refresh.Some?)
    || (r.kind == Imported && r.oauth && r.refresh.Some?)
  }

  /** A single-flight task goes on exactly if the stored record is a Codex
      credential with a refresh token, and its access token is the one observed, or
      one of the two is missing. */
  lemma SingleFlightExact(s: State, t: Task, observed: Option<nat>)
    requires Enabled(s, Read(t)) && s.work[t].mode == SingleFlight(observed)
    ensures var c, phase := s.locks.seats[t].channel, Step(s, Read(t)).work[t].phase;
            && (phase.Ready? <==>
                  && c in s.store && s.store[c].kind == Codex
                  && s.store[c].key.CodexKey? && s.store[c].key.refresh.Some?
                  && (observed.None? || s.store[c].key.access.None? || s.store[c].key.access == observed))
            && (phase.Ready? ==> phase.seen == s.store[c]) && (!phase.Ready? ==> phase.Finished?)
  {
  }

  /** The stamp that feedback looks at. */
  function StampOf(r: Record): Option<int> {
    if r.kind == Codex && r.key.CodexKey? then r.key.stamp else if r.kind == Imported then r.stamp else None
  }

  /** A feedback task goes on exactly if the stored record can be refreshed and has
      no stamp within 30 seconds of now, before or after. */
  lemma FeedbackExact(s: State, t: Task)
    requires Enabled(s, Read(t)) && s.work[t].mode == Feedback && 0 <= s.now <= I64_MAX
    requires var c := s.locks.seats[t].channel;
             c in s.store && StampOf(s.store[c]).Some? ==> I64_MIN <= StampOf(s.store[c]).value <= I64_MAX
    ensures var c, phase := s.locks.seats[t].channel, Step(s, Read(t)).work[t].phase;
            && (phase.Ready? <==>
                  && c in s.store && Refreshable(s.store[c])
                  && (StampOf(s.store[c]).None? || s.now - StampOf(s.store[c]).value > 30
                      || StampOf(s.store[c]).value - s.now > 30))
            && (phase.Ready? ==> phase.seen == s.store[c]) && (!phase.Ready? ==> phase.Finished?)
  {
  }

  // ------------------------------------------------------- what upstream is told

  /** A task presents the refresh token it read, and upstream's answer decides what
      it holds then: nothing after a refusal, the same refresh token, or a new one. */
  lemma PresentExact(s: State, t: Task, accepted: bool, rotates: bool, access: nat)
    requires Enabled(s, Present(t, accepted, rotates, access))
    ensures var seen, next := s.work[t].phase.seen, Step(s, Present(t, accepted, rotates, access));
            var token := if seen.kind == Codex && seen.key.CodexKey? then seen.key.refresh else seen.refresh;
            var phase := next.work[t].phase;
            && token.Some? && |next.log| == |s.log| + 1 && next.log[|s.log|].token == token.value
            && next.log[|s.log|].channel == s.locks.seats[t].channel
            && next.store == s.store
            && (phase.Granted? <==> accepted && token.value !in s.spent)
            && (phase.Granted? ==>
                  && phase.seen == seen && phase.clock == None && phase.grant.access == access
                  && (!rotates ==> phase.grant.refresh == token.value && next.spent == s.spent)
                  && (rotates ==> phase.grant.refresh.serial == s.serial && next.spent == s.spent + {token.value}))
            && (!phase.Granted? ==> phase.Finished? && next.spent == s.spent)
  {
  }

  // ----------------------------------------------------------- what is committed

  /** The stored record is still the one that was read, as far as the key goes. */
  predicate KeyUnchanged(s: State, t: Task)
    requires Enabled(s, Commit(t, true))
  {
    var c := s.locks.seats[t].channel;
    c in s.store && s.store[c].key == s.work[t].phase.seen.key
  }

  /** The compare-and-swap. The commit changes its own channel only, and that only
      if storage answers and the key is still the one read; then a Codex key holds
      the granted access token, refresh token and stamp, and an imported channel the
      granted access token as its key, and the granted refresh token and stamp in
      settings that nobody edited meanwhile. */
  lemma CommitExact(s: State, t: Task, stored: bool)
    requires Enabled(s, Commit(t, stored))
    ensures var c, next, p := s.locks.seats[t].channel, Step(s, Commit(t, stored)), s.work[t].phase;
            && next.store.Keys == s.store.Keys && next.log == s.log && next.spent == s.spent
            && next.work[t].phase.Finished?
            && (forall d :: d in s.store && d != c ==> next.store[d] == s.store[d])
            && (c in s.store && (!stored || s.store[c].key != p.seen.key) ==> next.store[c] == s.store[c])
            && (c in s.store && stored && s.store[c].key == p.seen.key ==>
                  var was, now := s.store[c], next.store[c];
                  && now.kind == was.kind && now.oauth == was.oauth
                  && (p.seen.kind == Codex && p.seen.key.CodexKey? ==>
                        && now.refresh == was.refresh && now.stamp == was.stamp
                        && now.key == CodexKey(Some(p.grant.access), Some(p.grant.refresh), p.clock, p.seen.key.rest))
                  && (!(p.seen.kind == Codex && p.seen.key.CodexKey?) ==>
                        && now.key == PlainKey(p.grant.access)
                        && (was.refresh == p.seen.refresh ==> now.refresh == Some(p.grant.refresh))
                        && (was.stamp == p.seen.stamp ==> now.stamp == p.clock)))
  {
  }

  /** Steps that leave channel `c` as it is stored, and task `t` at its work. */
  predicate Leaves(e: Event, c: Channel, t: Task) {
    match e
    case Edit(d, _) => d != c
    case Tick(_) => true
    case Present(_, _, _, _) => true
    case Stamp(_) => true
    case _ => e.task != t
  }

  /** Task `t` is at work on channel `c`, which holds `r`, having read `seen`. */
  ghost predicate Working(s: State, t: Task, c: Channel, seen: Record, r: Record) {
    && At(s, t) && ChannelOf(s, t) == c && Holds(s.work[t].phase) && c in s.store && s.store[c] == r
    && (s.work[t].phase.Ready? || s.work[t].phase.Granted? ==> s.work[t].phase.seen == seen)
    && !s.work[t].phase.Inside?
  }

  lemma OthersLeave(s: State, e: Event, t: Task, c: Channel, seen: Record, r: Record)
    requires Linked(s) && Working(s, t, c, seen, r) && Enabled(s, e) && Leaves(e, c, t)
    ensures Working(Step(s, e), t, c, seen, r)
  {
    match e
    case Commit(u, stored) => CommitLeaves(s, u, stored, t, c, seen, r);
    case Read(u) => ReadLeaves(s, u, t, c, seen, r);
    case Present(u, accepted, rotates, access) => PresentLeaves(s, u, accepted, rotates, access, t, c, seen, r);
    case Stamp(_) =>
    case Edit(_, _) =>
    case Tick(_) =>
    case _ => LockStepsLeave(s, e, t, c, seen, r);
  }

  lemma ReadLeaves(s: State, u: Task, t: Task, c: Channel, seen: Record, r: Record)
    requires Working(s, t, c, seen, r) && Enabled(s, Read(u)) && u != t
    ensures Working(Step(s, Read(u)), t, c, seen, r)
  {
  }

  lemma PresentLeaves(s: State, u: Task, accepted: bool, rotates: bool, access: nat, t: Task, c: Channel,
                      seen: Record, r: Record)
    requires Working(s, t, c, seen, r) && Enabled(s, Present(u, accepted, rotates, access))
    ensures Working(Step(s, Present(u, accepted, rotates, access)), t, c, seen, r)
  {
  }

  lemma LockStepsLeave(s: State, e: Event, t: Task, c: Channel, seen: Record, r: Record)
    requires Working(s, t, c, seen, r) && Enabled(s, e) && Leaves(e, c, t)
    requires e.Begin? || e.Take? || e.Unlock? || e.Forget? || e.Cancel?
    ensures Working(Step(s, e), t, c, seen, r)
  {
    if e.Cancel? { CancelElsewhere(s, e.task); } else { SeatsElsewhere(s, e); }
  }

  lemma CommitLeaves(s: State, u: Task, stored: bool, t: Task, c: Channel, seen: Record, r: Record)
    requires Linked(s) && Working(s, t, c, seen, r) && Enabled(s, Commit(u, stored)) && u != t
    ensures Working(Step(s, Commit(u, stored)), t, c, seen, r)
  {
    LinkedIsExclusive(s);
    assert ChannelOf(s, u) != c;
    CommitExact(s, u, stored);
  }

  lemma {:induction false} WorkingStays(now: int, events: seq<Event>, more: seq<Event>, t: Task, c: Channel,
                                        seen: Record, r: Record)
    requires Working(Run(now, events), t, c, seen, r)
    requires forall i :: 0 <= i < |more| ==> Leaves(more[i], c, t)
    ensures Working(Run(now, events + more), t, c, seen, r)
    decreases |more|
  {
    if more == [] {
      assert events + more == events;
    } else {
      var front, last := more[..|more| - 1], more[|more| - 1];
      WorkingStays(now, events, front, t, c, seen, r);
      assert events + more == events + front + [last];
      RunSnoc(now, events + front, last);
      RunLinked(now, events + front);
      var s := Run(now, events + front);
      if Enabled(s, last) { OthersLeave(s, last, t, c, seen, r); }
    }
  }

  /** An operator's edit that changes the key, after task `t` read the channel, is
      still what is stored once `t` has committed, whatever else went on. */
  lemma EditOutlivesCommit(now: int, events: seq<Event>, t: Task, before: seq<Event>, c: Channel, r: Record,
                           after: seq<Event>, stored: bool)
    requires Enabled(Run(now, events), Read(t)) && ChannelOf(Run(now, events), t) == c && c in Run(now, events).store
    requires forall i :: 0 <= i < |before| ==> Leaves(before[i], c, t)
    requires forall i :: 0 <= i < |after| ==> Leaves(after[i], c, t)
    requires r.key != Run(now, events).store[c].key
    requires EditAllowed(Run(now, events + [Read(t)] + before), c, r)
    ensures var all := events + [Read(t)] + before + [Edit(c, r)] + after + [Commit(t, stored)];
            c in Run(now, all).store && Run(now, all).store[c] == r
  {
    var seen := Run(now, events).store[c];
    RunLinked(now, events);
    RunSnoc(now, events, Read(t));
    var read := events + [Read(t)];
    assert Working(Run(now, read), t, c, seen, seen);
    WorkingStays(now, read, before, t, c, seen, seen);
    RunSnoc(now, read + before, Edit(c, r));
    var edited := read + before + [Edit(c, r)];
    assert Working(Run(now, edited), t, c, seen, r);
    WorkingStays(now, edited, after, t, c, seen, r);
    RunSnoc(now, edited + after, Commit(t, stored));
    var s := Run(now, edited + after);
    if Enabled(s, Commit(t, stored)) { CommitExact(s, t, stored); }
  }

  // ----------------------------------------------------------- the second caller

  /** Nothing is committed or edited on channel `c` by the event. */
  ghost predicate Spares(s: State, e: Event, c: Channel) {
    match e
    case Edit(d, _) => d != c
    case Commit(u, _) => At(s, u) ==> ChannelOf(s, u) != c
    case _ => true
  }

  ghost predicate AllSpare(now: int, events: seq<Event>, more: seq<Event>, c: Channel) {
    forall i :: 0 <= i < |more| ==> Spares(Run(now, events + more[..i]), more[i], c)
  }

  lemma SpareFront(now: int, events: seq<Event>, more: seq<Event>, c: Channel)
    requires more != [] && AllSpare(now, events, more, c)
    ensures var n := |more| - 1;
            AllSpare(now, events, more[..n], c) && Spares(Run(now, events + more[..n]), more[n], c)
  {
    var front := more[..|more| - 1];
    forall i | 0 <= i < |front| ensures Spares(Run(now, events + front[..i]), front[i], c) {
      assert front[..i] == more[..i];
    }
  }

  lemma StoreNext(now: int, events: seq<Event>, last: Event, c: Channel)
    requires c in Run(now, events).store && Spares(Run(now, events), last, c)
    ensures c in Run(now, events + [last]).store && Run(now, events + [last]).store[c] == Run(now, events).store[c]
  {
    RunSnoc(now, events, last);
    if Enabled(Run(now, events), last) { SparedStays(Run(now, events), last, c); }
  }

  lemma {:induction false} StoreStays(now: int, events: seq<Event>, more: seq<Event>, c: Channel)
    requires c in Run(now, events).store && AllSpare(now, events, more, c)
    ensures c in Run(now, events + more).store && Run(now, events + more).store[c] == Run(now, events).store[c]
    decreases |more|
  {
    if more == [] {
      assert events + more == events;
    } else {
      var front, last := more[..|more| - 1], more[|more| - 1];
      SpareFront(now, events, more, c);
      StoreStays(now, events, front, c);
      assert events + more == events + front + [last];
      StoreNext(now, events + front, last, c);
    }
  }

  lemma SparedStays(s: State, e: Event, c: Channel)
    requires c in s.store && Enabled(s, e) && Spares(s, e, c)
    ensures c in Step(s, e).store && Step(s, e).store[c] == s.store[c]
  {
    if e.Commit? { CommitExact(s, e.task, e.stored); }
  }

  /** A task that has finished, or is gone. */
  ghost predicate Over(s: State, t: Task) {
    t !in s.work || s.work[t].phase.Finished? || s.work[t].phase.Released?
  }

  lemma OverStays(s: State, e: Event, t: Task)
    requires Over(s, t) && Enabled(s, e) && !(e.Begin? && e.task == t)
    ensures Over(Step(s, e), t)
  {
  }

  lemma {:induction false} RemainsOver(now: int, events: seq<Event>, more: seq<Event>, t: Task)
    requires Over(Run(now, events), t) && forall i :: 0 <= i < |more| ==> !(more[i].Begin? && more[i].task == t)
    ensures Over(Run(now, events + more), t)
    decreases |more|
  {
    if more == [] {
      assert events + more == events;
    } else {
      var front, last := more[..|more| - 1], more[|more| - 1];
      RemainsOver(now, events, front, t);
      assert events + more == events + front + [last];
      RunSnoc(now, events + front, last);
      if Enabled(Run(now, events + front), last) { OverStays(Run(now, events + front), last, t); }
    }
  }

  /** Of two single-flight callers that observed the same access token, the second
      presents nothing: once the first has stored another one, and until the channel
      is edited or refreshed again, a task that observed the old one ends with its
      read. */
  lemma SecondCallerPresentsNothing(now: int, events: seq<Event>, u: Task, more: seq<Event>, t: Task, observed: nat,
                                    rest: seq<Event>, accepted: bool, rotates: bool, access: nat)
    requires Enabled(Run(now, events), Commit(u, true)) && KeyUnchanged(Run(now, events), u)
    requires Run(now, events).work[u].phase.seen.kind == Codex && Run(now, events).work[u].phase.seen.key.CodexKey?
    requires Run(now, events).work[u].phase.grant.access != observed
    requires var c := ChannelOf(Run(now, events), u);
             && (forall i :: 0 <= i < |more| ==>
                   Spares(Run(now, events + [Commit(u, true)] + more[..i]), more[i], c))
             && var s := Run(now, events + [Commit(u, true)] + more);
                Enabled(s, Read(t)) && ChannelOf(s, t) == c && s.work[t].mode == SingleFlight(Some(observed))
    requires forall i :: 0 <= i < |rest| ==> !(rest[i].Begin? && rest[i].task == t)
    ensures var all := events + [Commit(u, true)] + more + [Read(t)] + rest;
            !Enabled(Run(now, all), Present(t, accepted, rotates, access))
  {
    var c, done := ChannelOf(Run(now, events), u), events + [Commit(u, true)];
    RunSnoc(now, events, Commit(u, true));
    CommitExact(Run(now, events), u, true);
    StoreStays(now, done, more, c);
    RunSnoc(now, done + more, Read(t));
    SingleFlightExact(Run(now, done + more), t, Some(observed));
    RemainsOver(now, done + more + [Read(t)], rest, t);
  }
}
