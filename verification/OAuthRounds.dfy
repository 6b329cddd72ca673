/** A whole refresh, from the request to the stored grant. */
module OAuthRounds {
  import opened Prelude
  import opened OAuthRefresh
  import opened OAuthDecisions

  /** The entry point's own condition on the stored record. */
  predicate Goes(mode: Mode, r: Record, now: int) {
    match mode
    case SingleFlight(observed) =>
      && r.kind == Codex && r.key.CodexKey? && r.key.refresh.Some?
      && (observed.None? || r.key.access.None? || r.key.access == observed)
    case Feedback =>
      && Refreshable(r)
      && (StampOf(r).None? || now - StampOf(r).value > 30 || StampOf(r).value - now > 30)
  }

  ghost predicate Nobody(s: State, c: Channel) {
    forall u :: u in s.locks.seats ==> s.locks.seats[u].channel != c
  }

  /** A task on a channel that nobody uses gets the lock at once. */
  lemma EntersAtOnce(s: State, t: Task, c: Channel, mode: Mode)
    requires Linked(s) && Enabled(s, Begin(t, c, mode)) && Nobody(s, c)
    ensures var b := Step(s, Begin(t, c, mode));
            && Enabled(b, Take(t)) && ChannelOf(b, t) == c && b.work[t] == Work(mode, Queued)
            && (b.store, b.spent, b.now, b.serial) == (s.store, s.spent, s.now, s.serial)
  {
    BeginLinked(s, t, c, mode);
    var l := Step(s, Begin(t, c, mode)).locks;
    if l.seats[t].lock in l.holder { assert false; }
  }

  /** It then reads what is stored and goes on. */
  lemma ReadsAtOnce(s: State, t: Task, c: Channel, mode: Mode)
    requires At(s, t) && ChannelOf(s, t) == c && s.work[t] == Work(mode, Queued) && Enabled(s, Take(t))
    requires c in s.store && Goes(mode, s.store[c], s.now)
    requires 0 <= s.now <= I64_MAX && (StampOf(s.store[c]).Some? ==> I64_MIN <= StampOf(s.store[c]).value <= I64_MAX)
    ensures var k := Step(s, Take(t));
            && Enabled(k, Read(t))
            && var r := Step(k, Read(t));
               && At(r, t) && ChannelOf(r, t) == c && r.work[t].phase == Ready(s.store[c])
               && (r.store, r.spent, r.now, r.serial) == (s.store, s.spent, s.now, s.serial)
  {
    var k := Step(s, Take(t));
    if mode.Feedback? { FeedbackExact(k, t); } else { SingleFlightExact(k, t, mode.observed); }
  }

  /** What a whole refresh leaves: the granted access token, the time, and a refresh
      token that is the one there was or, rotated, a new one. */
  predicate RefreshedAs(was: Record, now: Record, access: nat, rotated: bool, at: int) {
    if was.kind == Codex && was.key.CodexKey? then
      && now.key.CodexKey? && now.key.access == Some(access) && now.key.stamp == Some(at)
      && now.key.rest == was.key.rest
      && now.key.refresh.Some? && (now.key.refresh == was.key.refresh <==> !rotated)
    else
      && now.key == PlainKey(access) && now.stamp == Some(at)
      && now.refresh.Some? && (now.refresh == was.refresh <==> !rotated)
  }

  lemma StoresAtOnce(s: State, t: Task, c: Channel, rotates: bool, access: nat)
    requires At(s, t) && ChannelOf(s, t) == c && c in s.store && s.work[t].phase == Ready(s.store[c])
    requires Refreshable(s.store[c])
    requires forall k :: Credential(s.store[c]) == Some(k) ==> k !in s.spent && k.serial < s.serial
    ensures Enabled(s, Present(t, true, rotates, access))
    ensures var p := Step(s, Present(t, true, rotates, access));
            && Enabled(p, Stamp(t)) && Enabled(Step(p, Stamp(t)), Commit(t, true))
            && var e := Step(Step(p, Stamp(t)), Commit(t, true));
               c in e.store && RefreshedAs(s.store[c], e.store[c], access, rotates, s.now)
  {
    PresentExact(s, t, true, rotates, access);
    var q := Step(Step(s, Present(t, true, rotates, access)), Stamp(t));
    CommitExact(q, t, true);
  }

  /** End to end, from any point of any run: a task that comes to a channel nobody
      uses, finds a credential it may refresh, one that upstream has not rotated away,
      and is granted a new one stores the grant. */
  lemma RefreshCompletes(now: int, events: seq<Event>, t: Task, c: Channel, mode: Mode, rotates: bool, access: nat)
    requires var s := Run(now, events);
             && t !in s.work && Nobody(s, c) && c in s.store && Goes(mode, s.store[c], s.now)
             && 0 <= s.now <= I64_MAX
             && (StampOf(s.store[c]).Some? ==> I64_MIN <= StampOf(s.store[c]).value <= I64_MAX)
             && forall k :: Credential(s.store[c]) == Some(k) ==> k !in s.spent
    ensures var all := events + [Begin(t, c, mode)] + [Take(t)] + [Read(t)] + [Present(t, true, rotates, access)]
                       + [Stamp(t)] + [Commit(t, true)];
            var s := Run(now, events);
            c in Run(now, all).store && RefreshedAs(s.store[c], Run(now, all).store[c], access, rotates, s.now)
  {
    var s := Run(now, events);
    RunLinked(now, events);
    RunIssued(now, events);
    EntersAtOnce(s, t, c, mode);
    var first := events + [Begin(t, c, mode)];
    RunSnoc(now, events, Begin(t, c, mode));
    ReadsAtOnce(Run(now, first), t, c, mode);
    RunSnoc(now, first, Take(t));
    var second := first + [Take(t)] + [Read(t)];
    RunSnoc(now, first + [Take(t)], Read(t));
    StoresAtOnce(Run(now, second), t, c, rotates, access);
    RunSnoc(now, second, Present(t, true, rotates, access));
    RunSnoc(now, second + [Present(t, true, rotates, access)], Stamp(t));
    RunSnoc(now, second + [Present(t, true, rotates, access)] + [Stamp(t)], Commit(t, true));
  }
}
