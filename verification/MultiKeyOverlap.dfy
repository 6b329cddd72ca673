/** Management actions that overlap: each reads the channel, waits, and saves its
    changed copy, while other actions and gateway reports come in between. */
module MultiKeyOverlap {
  import opened Prelude
  import opened Text
  import opened MultiKey
  import opened MultiKeyStore
  import opened MultiKeyRuns

  datatype Reading = Reading(seen: Stored, action: Action, now: nat -> int)

  /** The stored channel, and what each task at work has read of it. */
  datatype World = World(channel: Stored, tasks: map<nat, Reading>)

  datatype Moment =
    | Read(task: nat, action: Action, now: nat -> int)
    | Save(task: nat)
    | Report(key: nat, reason: string, time: int)

  function Written(c: Stored, r: Reading): Stored {
    var (copy, reply) := Prepared(r.seen, r.action, r.now);
    if reply == Done then Saved(c, copy) else c
  }

  function Next(w: World, e: Moment): World {
    match e
    case Read(t, a, now) => w.(tasks := w.tasks[t := Reading(w.channel, a, now)])
    case Save(t) => if t in w.tasks then World(Written(w.channel, w.tasks[t]), w.tasks - {t}) else w
    case Report(k, reason, time) => w.(channel := Stepped(w.channel, Feedback(k, reason, time)))
  }

  function After(c: Stored, moments: seq<Moment>): World {
    if moments == [] then World(c, map[]) else Next(After(c, moments[..|moments| - 1]), moments[|moments| - 1])
  }

  lemma AfterSnoc(c: Stored, moments: seq<Moment>, e: Moment)
    ensures After(c, moments + [e]) == Next(After(c, moments), e)
  {
    assert (moments + [e])[..|moments|] == moments;
  }

  // -------------------------------------------------------- nothing in between

  /** A run of whole actions and reports, as moments. */
  function Serial(events: seq<Event>): seq<Moment> {
    if events == [] then []
    else
      var e := events[|events| - 1];
      Serial(events[..|events| - 1])
      + match e
        case Act(a, now) => [Read(0, a, now)] + [Save(0)]
        case Feedback(k, reason, time) => [Report(k, reason, time)]
  }

  /** When nothing comes between a read and its save, the runs are those of whole
      actions. */
  lemma {:induction false} SerialIsRun(c: Stored, events: seq<Event>)
    ensures After(c, Serial(events)) == World(Run(c, events), map[])
  {
    if events != [] {
      var front, e := events[..|events| - 1], events[|events| - 1];
      SerialIsRun(c, front);
      match e
      case Act(a, now) => ActIsReadSave(c, Serial(front), a, now, Run(c, front));
      case Feedback(k, reason, time) => AfterSnoc(c, Serial(front), Report(k, reason, time));
    }
  }

  lemma ActIsReadSave(c: Stored, before: seq<Moment>, a: Action, now: nat -> int, d: Stored)
    requires After(c, before) == World(d, map[])
    ensures After(c, before + ([Read(0, a, now)] + [Save(0)])) == World(Acted(d, a, now), map[])
  {
    assert before + ([Read(0, a, now)] + [Save(0)]) == before + [Read(0, a, now)] + [Save(0)];
    AfterSnoc(c, before, Read(0, a, now));
    AfterSnoc(c, before + [Read(0, a, now)], Save(0));
    assert map[0 := Reading(d, a, now)] - {0} == map[];
  }

  // ------------------------------------------------------ something in between

  lemma {:induction false} ReadingStays(c: Stored, before: seq<Moment>, t: nat, a: Action, now: nat -> int,
                                        more: seq<Moment>)
    requires forall i :: 0 <= i < |more| ==> more[i].Report? || more[i].task != t
    ensures var w := After(c, before + [Read(t, a, now)] + more);
            t in w.tasks && w.tasks[t] == Reading(After(c, before).channel, a, now)
    decreases |more|
  {
    var start := before + [Read(t, a, now)];
    if more == [] {
      assert start + more == start;
      AfterSnoc(c, before, Read(t, a, now));
    } else {
      var front, last := more[..|more| - 1], more[|more| - 1];
      ReadingStays(c, before, t, a, now, front);
      assert start + more == start + front + [last];
      AfterSnoc(c, start + front, last);
    }
  }

  /** A map entry after a save: the copy's if the copy has one. */
  function Over<T>(copy: map<nat, T>, stored: map<nat, T>, i: nat): Option<T> {
    if i in copy then Some(copy[i]) else Get(stored, i)
  }

  /** What a save of the copy leaves at one index. */
  predicate EntriesOver(end: Stored, stored: Stored, copy: Stored, i: nat) {
    && Get(end.st.status, i) == Over(copy.st.status, stored.st.status, i)
    && Get(end.st.time, i) == Over(copy.st.time, stored.st.time, i)
    && Get(end.st.reason, i) == Over(copy.st.reason, stored.st.reason, i)
  }

  lemma SavedEntries(stored: Stored, copy: Stored, i: nat)
    ensures EntriesOver(Saved(stored, copy), stored, copy, i)
  {
  }

  /** A prepared copy has a blank text exactly when it has no keys. */
  lemma CopyBlank(seen: Stored, a: Action, now: nat -> int)
    requires Prepared(seen, a, now).1 == Done
    ensures var copy := Prepared(seen, a, now).0; Trim(copy.text) == "" <==> Keys(copy) == []
  {
    var copy := Prepared(seen, a, now).0;
    if Keys(copy) != [] { KeysNotBlank(copy); }
    if a.DeleteKey? {
      KeptBlank(seen, KeepAllBut(|Keys(seen)|, a.index.value));
    } else if a.DeleteDisabledKeys? {
      KeptBlank(seen, KeepUnlessAuto(View(seen)));
    }
  }

  lemma KeptBlank(seen: Stored, keep: seq<bool>)
    requires |keep| == |Keys(seen)|
    ensures var copy := KeptCopy(seen, keep); Trim(copy.text) == "" <==> Keys(copy) == []
  {
    KeptTextBlank(seen, keep);
    KeptCopyView(seen, keep);
    SelectOrigins(Keys(seen), keep);
  }

  /** A save by a task whose read was overtaken. */
  lemma SaveIs(c: Stored, before: seq<Moment>, t: nat, a: Action, now: nat -> int, more: seq<Moment>)
    requires forall k :: 0 <= k < |more| ==> more[k].Report? || more[k].task != t
    ensures var all := before + [Read(t, a, now)] + more;
            After(c, all + [Save(t)]).channel
            == Written(After(c, all).channel, Reading(After(c, before).channel, a, now))
  {
    ReadingStays(c, before, t, a, now, more);
    AfterSnoc(c, before + [Read(t, a, now)] + more, Save(t));
  }

  /** What a save leaves of what came between its read and itself. An action that
      failed changes nothing. Otherwise the keys are those of the copy, unless it has
      none: a deletion in between is undone. Each map entry is the copy's where the
      copy has one, and otherwise what is stored by then. */
  lemma OverlapExact(stored: Stored, r: Reading, i: nat)
    ensures var end, copy, reply := Written(stored, r), Prepared(r.seen, r.action, r.now).0,
                                    Prepared(r.seen, r.action, r.now).1;
            if reply != Done then end == stored
            else
              && Keys(end) == (if Keys(copy) == [] then Keys(stored) else Keys(copy))
              && EntriesOver(end, stored, copy, i)
  {
    var (copy, reply) := Prepared(r.seen, r.action, r.now);
    if reply == Done {
      CopyBlank(r.seen, r.action, r.now);
      SavedEntries(stored, copy, i);
    }
  }

  /** The status of an index after the save: the copy's if it has one, else the one
      that is stored by then. */
  lemma OverlappedStatus(c: Stored, before: seq<Moment>, t: nat, a: Action, now: nat -> int, more: seq<Moment>, i: nat)
    requires forall k :: 0 <= k < |more| ==> more[k].Report? || more[k].task != t
    ensures var stored := After(c, before + [Read(t, a, now)] + more).channel;
            var end := After(c, before + [Read(t, a, now)] + more + [Save(t)]).channel;
            var (copy, reply) := Prepared(After(c, before).channel, a, now);
            StatusAt(end.st, i)
            == if reply == Done && i in copy.st.status then copy.st.status[i] else StatusAt(stored.st, i)
  {
    var all, r := before + [Read(t, a, now)] + more, Reading(After(c, before).channel, a, now);
    SaveIs(c, before, t, a, now, more);
    OverlapExact(After(c, all).channel, r, i);
    StatusIsGet(After(c, all).channel.st, i);
    StatusIsGet(After(c, all + [Save(t)]).channel.st, i);
  }

  /** A key that was auto-disabled while an action waited still is after the save if
      and only if the copy says nothing of its status, or the same. */
  lemma OverlappedReport(c: Stored, before: seq<Moment>, t: nat, a: Action, now: nat -> int, more: seq<Moment>, i: nat)
    requires forall k :: 0 <= k < |more| ==> more[k].Report? || more[k].task != t
    requires StatusAt(After(c, before + [Read(t, a, now)] + more).channel.st, i) == AUTO_DISABLED
    ensures var end := After(c, before + [Read(t, a, now)] + more + [Save(t)]).channel;
            var (copy, reply) := Prepared(After(c, before).channel, a, now);
            StatusAt(end.st, i) == AUTO_DISABLED
            <==> reply != Done || i !in copy.st.status || copy.st.status[i] == AUTO_DISABLED
  {
    OverlappedStatus(c, before, t, a, now, more, i);
  }

  /** Keys deleted while another action waited come back with its save: unless it
      deletes itself, the keys are then the ones it read. */
  lemma OverlappedDelete(c: Stored, before: seq<Moment>, t: nat, a: Action, now: nat -> int, more: seq<Moment>)
    requires forall k :: 0 <= k < |more| ==> more[k].Report? || more[k].task != t
    requires Prepared(After(c, before).channel, a, now).1 == Done && !a.DeleteKey? && !a.DeleteDisabledKeys?
    ensures Keys(After(c, before + [Read(t, a, now)] + more + [Save(t)]).channel) == Keys(After(c, before).channel)
  {
    var all, r := before + [Read(t, a, now)] + more, Reading(After(c, before).channel, a, now);
    SaveIs(c, before, t, a, now, more);
    OverlapExact(After(c, all).channel, r, 0);
    assert Prepared(r.seen, a, now).0.text == r.seen.text;
  }

  // -------------------------------------------------- what holds of every overlap

  ghost predicate Picked(c: Stored, d: Stored) {
    exists from :: Picks(from, Keys(c), Keys(d))
  }

  lemma PickedSelf(c: Stored)
    ensures Picked(c, c)
  {
    var from := seq(|Keys(c)|, i => i);
    assert Picks(from, Keys(c), Keys(c));
  }

  lemma PickedSame(c: Stored, d: Stored, next: Stored)
    requires Picked(c, d) && next.text == d.text
    ensures Picked(c, next)
  {
    var from :| Picks(from, Keys(c), Keys(d));
    assert Picks(from, Keys(c), Keys(next));
  }

  lemma PickedTwice(c: Stored, d: Stored, from: seq<nat>, keys: seq<string>)
    requires Picked(c, d) && Picks(from, Keys(d), keys)
    ensures exists all :: Picks(all, Keys(c), keys)
  {
    var first :| Picks(first, Keys(c), Keys(d));
    var all := seq(|from|, i requires 0 <= i < |from| && from[i] < |first| => first[from[i]]);
    assert Picks(all, Keys(c), keys);
  }

  lemma WrittenPicked(c: Stored, stored: Stored, r: Reading)
    requires Picked(c, stored) && Picked(c, r.seen)
    ensures Picked(c, Written(stored, r))
  {
    var (copy, reply) := Prepared(r.seen, r.action, r.now);
    OverlapExact(stored, r, 0);
    if reply == Done && Keys(copy) != [] {
      var from := CopyPicks(r.seen, r.action, r.now);
      PickedTwice(c, r.seen, from, Keys(copy));
    }
  }

  lemma CopyPicks(seen: Stored, a: Action, now: nat -> int) returns (from: seq<nat>)
    ensures Picks(from, Keys(seen), Keys(Prepared(seen, a, now).0))
  {
    from := seq(|Keys(seen)|, i => i);
    if Prepared(seen, a, now).1 == Done && a.DeleteKey? {
      from := CopyKept(seen, KeepAllBut(|Keys(seen)|, a.index.value));
    } else if Prepared(seen, a, now).1 == Done && a.DeleteDisabledKeys? {
      from := CopyKept(seen, KeepUnlessAuto(View(seen)));
    }
  }

  lemma CopyKept(seen: Stored, keep: seq<bool>) returns (from: seq<nat>)
    requires |keep| == |Keys(seen)|
    ensures Picks(from, Keys(seen), Keys(KeptCopy(seen, keep)))
  {
    KeptCopyView(seen, keep);
    from := SelectPaired(Keys(seen), Keys(seen), keep);
  }

  ghost predicate AllPicked(c: Stored, w: World) {
    Picked(c, w.channel) && forall t :: t in w.tasks ==> Picked(c, w.tasks[t].seen)
  }

  /** However actions overlap, the keys are original keys in their original order. */
  lemma {:induction false} KeysStayPicked(c: Stored, moments: seq<Moment>)
    ensures AllPicked(c, After(c, moments))
  {
    if moments == [] {
      PickedSelf(c);
    } else {
      var w, e := After(c, moments[..|moments| - 1]), moments[|moments| - 1];
      KeysStayPicked(c, moments[..|moments| - 1]);
      match e
      case Read(_, _, _) =>
      case Save(t) => if t in w.tasks { WrittenPicked(c, w.channel, w.tasks[t]); }
      case Report(k, reason, time) => PickedSame(c, w.channel, Stepped(w.channel, Feedback(k, reason, time)));
    }
  }

  /** No stored status says enabled: the program never writes one. */
  predicate NoneSaysEnabled(c: Stored) {
    forall i :: i in c.st.status ==> c.st.status[i] != ENABLED
  }

  lemma CopySaysNone(seen: Stored, a: Action, now: nat -> int)
    requires NoneSaysEnabled(seen)
    ensures NoneSaysEnabled(Prepared(seen, a, now).0)
  {
    if Prepared(seen, a, now).1 == Done && a.DeleteKey? {
      KeptSaysNone(seen, KeepAllBut(|Keys(seen)|, a.index.value));
    } else if Prepared(seen, a, now).1 == Done && a.DeleteDisabledKeys? {
      KeptSaysNone(seen, KeepUnlessAuto(View(seen)));
    }
  }

  lemma KeptSaysNone(seen: Stored, keep: seq<bool>)
    requires |keep| == |Keys(seen)|
    ensures NoneSaysEnabled(KeptCopy(seen, keep))
  {
    ReindexedMoves(seen.st, keep);
    var next := Reindexed(seen.st, keep).0;
    forall j | j in next.status ensures next.status[j] != ENABLED { assert Moves(seen.st, next, j, Origins(keep)[j]); }
  }

  ghost predicate AllGrow(c: Stored, w: World) {
    && Grows(c.st, w.channel.st) && NoneSaysEnabled(w.channel)
    && forall t :: t in w.tasks ==> NoneSaysEnabled(w.tasks[t].seen)
  }

  lemma WrittenGrows(stored: Stored, r: Reading)
    requires NoneSaysEnabled(stored) && NoneSaysEnabled(r.seen)
    ensures Grows(stored.st, Written(stored, r).st) && NoneSaysEnabled(Written(stored, r))
  {
    var (copy, reply) := Prepared(r.seen, r.action, r.now);
    CopySaysNone(r.seen, r.action, r.now);
    if reply == Done { OverlayGrows(stored.st, copy.st); }
  }

  /** However actions overlap: what was stored at an index stays stored, and an index
      that was disabled is disabled at the end, provided no stored status says
      enabled outright. */
  lemma {:induction false} OverlapsDisableForever(c: Stored, moments: seq<Moment>)
    requires NoneSaysEnabled(c)
    ensures AllGrow(c, After(c, moments))
  {
    if moments != [] {
      var w, e := After(c, moments[..|moments| - 1]), moments[|moments| - 1];
      OverlapsDisableForever(c, moments[..|moments| - 1]);
      match e
      case Read(_, _, _) =>
      case Save(t) => if t in w.tasks { WrittenGrows(w.channel, w.tasks[t]); }
      case Report(k, reason, time) => StepGrows(w.channel, Feedback(k, reason, time));
    }
  }
}
