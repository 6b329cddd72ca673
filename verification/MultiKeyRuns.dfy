/** Whole runs of key management and gateway feedback on a stored channel. */
module MultiKeyRuns {
  import opened Prelude
  import opened Text
  import opened MultiKey
  import opened MultiKeyStore

  /** The line number a gateway reports for the k-th key. */
  function LineOf(c: Stored, k: nat): nat
    requires k < |Keys(c)|
  {
    KeyLinesMatch(Lines(c.text));
    KeyLines(Lines(c.text))[k]
  }

  /** Management saves through the store's overlay; feedback writes in place. */
  function Stepped(c: Stored, e: Event): Stored {
    match e
    case Act(a, now) => Acted(c, a, now)
    case Feedback(k, reason, time) =>
      if k < |Keys(c)| then c.(st := AutoDisabled(c.text, c.st, LineOf(c, k), reason, time)) else c
  }

  function Run(c: Stored, events: seq<Event>): Stored {
    if events == [] then c else Stepped(Run(c, events[..|events| - 1]), events[|events| - 1])
  }

  lemma RunNext(c: Stored, events: seq<Event>, p: nat)
    requires p < |events|
    ensures Run(c, events[..p + 1]) == Stepped(Run(c, events[..p]), events[p])
    ensures AfterAll(View(c), events[..p + 1]) == After(AfterAll(View(c), events[..p]), events[p])
  {
    assert events[..p + 1][..p] == events[..p];
  }

  // --------------------------------------------------- when a step is as meant

  /** The entry at `i` already says what the report says. */
  predicate Reported(c: Stored, i: nat, reason: string, time: int) {
    StatusAt(c.st, i) == AUTO_DISABLED && Get(c.st.time, i) == Some(time) && Get(c.st.reason, i) == Some(reason)
  }

  /** Whether an event does what it means, told from the stored channel before
      it: an action sticks, and a report's line number is its key number, unless
      the report says nothing new of either. */
  predicate Faithful(c: Stored, e: Event) {
    match e
    case Act(a, _) => Sticks(c, a)
    case Feedback(k, reason, time) =>
      k < |Keys(c)| && |Keys(c)| > 1 ==>
        || LineOf(c, k) == k
        || (Reported(c, k, reason, time) && (LineOf(c, k) < |Keys(c)| ==> Reported(c, LineOf(c, k), reason, time)))
  }

  lemma FeedbackStored(c: Stored, k: nat, reason: string, time: int)
    requires k < |Keys(c)| && |Keys(c)| > 1
    ensures Stepped(c, Feedback(k, reason, time)) == c.(st := AutoDisabledAt(c.st, LineOf(c, k), reason, time))
  {
    KeyLinesMatch(Lines(c.text));
    assert LineOf(c, k) in KeyLines(Lines(c.text));
  }

  lemma AutoDisabledEntry(key: string, st: KeyState, i: nat, reason: string, time: int, j: nat)
    ensures EntryAt(key, AutoDisabledAt(st, i, reason, time), j)
         == if i == j then Entry(key, AUTO_DISABLED, Some(time), Some(reason)) else EntryAt(key, st, j)
  {
  }

  lemma FeedbackExact(c: Stored, k: nat, reason: string, time: int)
    requires k < |Keys(c)| && |Keys(c)| > 1
    ensures var e := Feedback(k, reason, time);
            View(Stepped(c, e)) == After(View(c), e) <==> Faithful(c, e)
  {
    var e, line := Feedback(k, reason, time), LineOf(c, k);
    var next, meant := View(Stepped(c, e)), After(View(c), e);
    FeedbackStored(c, k, reason, time);
    forall j | 0 <= j < |Keys(c)|
      ensures next[j] == meant[j] <==> (line == k || (j != k && j != line) || Reported(c, j, reason, time))
    {
      AutoDisabledEntry(Keys(c)[j], c.st, line, reason, time, j);
    }
    if Faithful(c, e) { assert next == meant; }
  }

  lemma StepExact(c: Stored, e: Event)
    ensures View(Stepped(c, e)) == After(View(c), e) <==> Faithful(c, e)
  {
    match e
    case Act(a, now) => ActionExact(c, a, now);
    case Feedback(k, reason, time) =>
      if k < |Keys(c)| && |Keys(c)| > 1 {
        FeedbackExact(c, k, reason, time);
      } else if k < |Keys(c)| {
        KeyLinesMatch(Lines(c.text));
      }
  }

  ghost predicate AllFaithful(c: Stored, events: seq<Event>) {
    forall p :: 0 <= p < |events| ==> Faithful(Run(c, events[..p]), events[p])
  }

  /** At every point of the run, the stored channel shows what the events so far
      mean. */
  ghost predicate Tracks(c: Stored, events: seq<Event>) {
    forall p :: 0 <= p <= |events| ==> View(Run(c, events[..p])) == AfterAll(View(c), events[..p])
  }

  /** A run shows what its events mean, at every point, if and only if every event
      is faithful to the channel it meets. */
  lemma {:induction false} RunExact(c: Stored, events: seq<Event>)
    ensures Tracks(c, events) <==> AllFaithful(c, events)
  {
    if Tracks(c, events) {
      forall p | 0 <= p < |events| ensures Faithful(Run(c, events[..p]), events[p]) {
        RunNext(c, events, p);
        assert View(Run(c, events[..p + 1])) == AfterAll(View(c), events[..p + 1]);
        StepExact(Run(c, events[..p]), events[p]);
      }
    }
    if AllFaithful(c, events) {
      forall p | 0 <= p <= |events| ensures View(Run(c, events[..p])) == AfterAll(View(c), events[..p]) {
        FaithfulTracks(c, events, p);
      }
    }
  }

  lemma {:induction false} FaithfulTracks(c: Stored, events: seq<Event>, p: nat)
    requires AllFaithful(c, events) && p <= |events|
    ensures View(Run(c, events[..p])) == AfterAll(View(c), events[..p])
    decreases p
  {
    if p > 0 {
      FaithfulTracks(c, events, p - 1);
      RunNext(c, events, p - 1);
      StepExact(Run(c, events[..p - 1]), events[p - 1]);
    }
  }

  /** After a faithful run, the stored channel holds original keys in their
      original order, and every entry that no event was about has its own status,
      time and reason. */
  lemma FaithfulRunKeepsState(c: Stored, events: seq<Event>)
    requires AllFaithful(c, events)
    ensures var now, lives := View(Run(c, events)), Lives(View(c), events);
            && |lives| == |now|
            && (forall i :: 0 <= i < |now| ==>
                  && lives[i].origin < |Keys(c)| && now[i].key == Keys(c)[lives[i].origin]
                  && (!lives[i].touched ==> now[i] == View(c)[lives[i].origin]))
            && (forall i, j :: 0 <= i < j < |now| ==> lives[i].origin < lives[j].origin)
  {
    FaithfulTracks(c, events, |events|);
    assert events[..|events|] == events;
    SurvivorsKeepTheirState(View(c), events);
  }

  // ------------------------------------------------------ the bound on indexes

  /** Whether an event leaves every stored index below the key count, told from
      the channel before it. */
  ghost predicate Fits(c: Stored, e: Event) {
    match e
    case Act(a, _) => Below(c.st, CountAfter(c, a))
    case Feedback(k, _, _) => k < |Keys(c)| && |Keys(c)| > 1 ==> LineOf(c, k) < |Keys(c)|
  }

  ghost predicate Bounded(c: Stored) {
    Below(c.st, |Keys(c)|)
  }

  lemma BoundStep(c: Stored, e: Event)
    requires Bounded(c)
    ensures Bounded(Stepped(c, e)) <==> Fits(c, e)
  {
    match e
    case Act(a, now) => BoundExact(c, a, now);
    case Feedback(k, reason, time) =>
      if k < |Keys(c)| && |Keys(c)| > 1 {
        FeedbackStored(c, k, reason, time);
        assert LineOf(c, k) in AutoDisabledAt(c.st, LineOf(c, k), reason, time).status;
      } else if k < |Keys(c)| {
        KeyLinesMatch(Lines(c.text));
      }
  }

  /** Stored indexes stay below the key count at every point of a run if and only
      if every event fits the channel it meets. */
  lemma {:induction false} BoundRun(c: Stored, events: seq<Event>)
    requires Bounded(c)
    ensures (forall p :: 0 <= p <= |events| ==> Bounded(Run(c, events[..p])))
       <==> forall p :: 0 <= p < |events| ==> Fits(Run(c, events[..p]), events[p])
  {
    if forall p :: 0 <= p <= |events| ==> Bounded(Run(c, events[..p])) {
      forall p | 0 <= p < |events| ensures Fits(Run(c, events[..p]), events[p]) {
        RunNext(c, events, p);
        assert Bounded(Run(c, events[..p])) && Bounded(Run(c, events[..p + 1]));
        BoundStep(Run(c, events[..p]), events[p]);
      }
    }
    if forall p :: 0 <= p < |events| ==> Fits(Run(c, events[..p]), events[p]) {
      forall p | 0 <= p <= |events| ensures Bounded(Run(c, events[..p])) { FittingStaysBounded(c, events, p); }
    }
  }

  lemma {:induction false} FittingStaysBounded(c: Stored, events: seq<Event>, p: nat)
    requires Bounded(c) && p <= |events|
    requires forall q :: 0 <= q < |events| ==> Fits(Run(c, events[..q]), events[q])
    ensures Bounded(Run(c, events[..p]))
    decreases p
  {
    if p > 0 {
      FittingStaysBounded(c, events, p - 1);
      RunNext(c, events, p - 1);
      BoundStep(Run(c, events[..p - 1]), events[p - 1]);
    }
  }

  // ------------------------------------------------------ what holds of every run

  /** Stored entries are never removed, and a disabled index never shows enabled
      again. */
  ghost predicate Grows(st: KeyState, next: KeyState) {
    && st.status.Keys <= next.status.Keys && st.time.Keys <= next.time.Keys && st.reason.Keys <= next.reason.Keys
    && forall i: nat :: StatusAt(st, i) != ENABLED ==> StatusAt(next, i) != ENABLED
  }

  /** An overlay grows when each status it brings is a disabled one or was there. */
  lemma OverlayGrows(st: KeyState, next: KeyState)
    requires forall i :: i in next.status ==> next.status[i] != ENABLED || StatusAt(st, i) == ENABLED
    ensures Grows(st, Overlaid(st, next))
  {
  }

  lemma ReindexedOverlayGrows(st: KeyState, keep: seq<bool>)
    ensures Grows(st, Overlaid(st, Reindexed(st, keep).0))
  {
    ReindexedMoves(st, keep);
    var next := Reindexed(st, keep).0;
    forall j | j in next.status ensures next.status[j] != ENABLED {
      assert Moves(st, next, j, Origins(keep)[j]);
    }
    OverlayGrows(st, next);
  }

  lemma ActedGrows(c: Stored, a: Action, now: nat -> int)
    ensures Grows(c.st, Acted(c, a, now).st)
  {
    var n := |Keys(c)|;
    if n > 1 {
      KeysNotBlank(c);
      match a
      case DisableKey(ix) => if ix.Some? { DisablingIsStored(c.st, now, ix.value); }
      case DisableAllKeys => DisableAllGrows(c.st, now, n);
      case EnableKey(ix) => if ix.Some? { EnablingStoresNothing(c, ix.value, now); }
      case EnableAllKeys => EnablingStoresNothing(c, 0, now);
      case DeleteKey(ix) => if GoodIndex(ix, n) { ReindexedOverlayGrows(c.st, KeepAllBut(n, ix.value)); }
      case DeleteDisabledKeys => ReindexedOverlayGrows(c.st, KeepUnlessAuto(View(c)));
      case Unsupported =>
    }
  }

  lemma DisableAllGrows(st: KeyState, now: nat -> int, n: nat)
    ensures Grows(st, Overlaid(st, DisabledTo(st, now, n)))
  {
    DisablingIsStored(st, now, n);
    forall i: nat | StatusAt(st, i) != ENABLED ensures StatusAt(DisabledTo(st, now, n), i) != ENABLED {
      StatusIsGet(st, i);
      StatusIsGet(DisabledTo(st, now, n), i);
      WrittenAt(st.status, EnabledTo(st, n), Manual, i);
    }
  }

  lemma StepGrows(c: Stored, e: Event)
    ensures Grows(c.st, Stepped(c, e).st)
  {
    match e
    case Act(a, now) => ActedGrows(c, a, now);
    case Feedback(k, reason, time) =>
  }

  /** In every run, whatever its events: what was stored at an index stays stored,
      and an index that was disabled is disabled at the end. */
  lemma {:induction false} DisabledForever(c: Stored, events: seq<Event>)
    ensures Grows(c.st, Run(c, events).st)
  {
    if events != [] {
      DisabledForever(c, events[..|events| - 1]);
      StepGrows(Run(c, events[..|events| - 1]), events[|events| - 1]);
    }
  }

  ghost predicate Picks(from: seq<nat>, keys: seq<string>, next: seq<string>) {
    && |from| == |next|
    && (forall i :: 0 <= i < |from| ==> from[i] < |keys| && next[i] == keys[from[i]])
    && (forall i, j :: 0 <= i < j < |from| ==> from[i] < from[j])
  }

  /** The positions a management event keeps, when it deletes. */
  function Kept(c: Stored, e: Event): (keep: seq<bool>)
    ensures |keep| == |Keys(c)|
  {
    if e.Act? && e.action.DeleteKey? && e.action.index.Some? then KeepAllBut(|Keys(c)|, e.action.index.value)
    else KeepUnlessAuto(View(c))
  }

  lemma EditKeepsText(c: Stored, e: Event)
    requires !Deletes(e)
    ensures Stepped(c, e).text == c.text
  {
  }

  lemma DeleteDisabledSaves(c: Stored, now: nat -> int)
    ensures Acted(c, DeleteDisabledKeys, now) in {c, Saved(c, KeptCopy(c, KeepUnlessAuto(View(c))))}
  {
  }

  lemma StepKeys(c: Stored, e: Event)
    ensures Stepped(c, e).text == c.text || Stepped(c, e) == Saved(c, KeptCopy(c, Kept(c, e)))
  {
    if !Deletes(e) {
      EditKeepsText(c, e);
    } else if e.action.DeleteDisabledKeys? {
      DeleteDisabledSaves(c, e.now);
    } else if |Keys(c)| > 1 && GoodIndex(e.action.index, |Keys(c)|) {
      DeleteKeySaves(c, e.action.index.value, e.now);
    }
  }

  lemma StepPicks(c: Stored, e: Event) returns (from: seq<nat>)
    ensures Picks(from, Keys(c), Keys(Stepped(c, e)))
  {
    StepKeys(c, e);
    if Stepped(c, e).text == c.text {
      from := seq(|Keys(c)|, i => i);
    } else {
      from := KeptPicks(c, Kept(c, e));
    }
  }

  lemma KeptPicks(c: Stored, keep: seq<bool>) returns (from: seq<nat>)
    requires |keep| == |Keys(c)|
    ensures Picks(from, Keys(c), Keys(Saved(c, KeptCopy(c, keep))))
  {
    if Origins(keep) == [] {
      NothingKeptSaves(c, keep);
      from := seq(|Keys(c)|, i => i);
    } else {
      KeptKeys(c, keep);
      from := SelectPaired(Keys(c), Keys(c), keep);
    }
  }

  /** In every run the keys are original keys in their original order. */
  lemma {:induction false} KeysArePicked(c: Stored, events: seq<Event>) returns (from: seq<nat>)
    ensures Picks(from, Keys(c), Keys(Run(c, events)))
  {
    if events == [] {
      from := seq(|Keys(c)|, i => i);
    } else {
      var before := KeysArePicked(c, events[..|events| - 1]);
      var last := StepPicks(Run(c, events[..|events| - 1]), events[|events| - 1]);
      from := seq(|last|, i requires 0 <= i < |last| && last[i] < |before| => before[last[i]]);
    }
  }
}
