/** What key management leaves in storage. The service changes a copy of the
    channel and sends it to the store, which overlays the new settings on the old
    ones and keeps the old key text when the new one is blank: an entry that the
    copy no longer has comes back. */
module MultiKeyStore {
  import opened Prelude
  import opened Text
  import opened MultiKey

  /** The key text and the three maps of a channel, as stored. */
  datatype Stored = Stored(text: string, st: KeyState)

  function Keys(c: Stored): seq<string> {
    ChannelKeys(c.text)
  }

  /** What an operator sees of the stored channel. */
  function View(c: Stored): (view: seq<Entry>)
    ensures |view| == |Keys(c)|
  {
    ViewOf(Keys(c), c.st)
  }

  /** The overlay of settings, on the three maps. */
  function Overlaid(old': KeyState, new': KeyState): KeyState {
    KeyState(old'.status + new'.status, old'.time + new'.time, old'.reason + new'.reason)
  }

  /** The store's update, given the changed copy. */
  function Saved(c: Stored, copy: Stored): Stored {
    Stored(if Trim(copy.text) == "" then c.text else copy.text, Overlaid(c.st, copy.st))
  }

  function KeptCopy(c: Stored, keep: seq<bool>): Stored
    requires |keep| == |Keys(c)|
  {
    Stored(Join(Select(Keys(c), keep), '\n'), Reindexed(c.st, keep).0)
  }

  /** The changed copy of each action, and the reply. */
  function Prepared(c: Stored, a: Action, now: nat -> int): (Stored, Reply) {
    var n := |Keys(c)|;
    if n <= 1 then (c, Refused)
    else match a
      case DisableKey(ix) =>
        if !GoodIndex(ix, n) then (c, BadIndex) else (c.(st := DisabledAt(c.st, ix.value, now(ix.value))), Done)
      case EnableKey(ix) =>
        if !GoodIndex(ix, n) then (c, BadIndex) else (c.(st := EnabledAt(c.st, ix.value)), Done)
      case EnableAllKeys => (c.(st := NoState), Done)
      case DisableAllKeys =>
        if NoneHas(View(c), ENABLED) then (c, Refused) else (c.(st := DisabledTo(c.st, now, n)), Done)
      case DeleteKey(ix) =>
        if !GoodIndex(ix, n) then (c, BadIndex) else (KeptCopy(c, KeepAllBut(n, ix.value)), Done)
      case DeleteDisabledKeys =>
        if NoneHas(View(c), AUTO_DISABLED) then (c, Refused) else (KeptCopy(c, KeepUnlessAuto(View(c))), Done)
      case Unsupported => (c, Refused)
  }

  /** The stored channel after the action. */
  function Acted(c: Stored, a: Action, now: nat -> int): Stored {
    var (copy, reply) := Prepared(c, a, now);
    if reply == Done then Saved(c, copy) else c
  }

  // ---------------------------------------------------------------- the copy

  lemma KeptCopyView(c: Stored, keep: seq<bool>)
    requires |keep| == |Keys(c)|
    ensures Keys(KeptCopy(c, keep)) == Select(Keys(c), keep)
    ensures View(KeptCopy(c, keep)) == Select(View(c), keep)
  {
    RetainedText(c.text, keep);
    ReindexAligned(Keys(c), c.st, keep);
  }

  /** The copy shows exactly what the action means, for every action. */
  lemma CopyIsRight(c: Stored, a: Action, now: nat -> int)
    ensures var (copy, reply) := Prepared(c, a, now);
            (View(copy), reply) == Managed(View(c), a, now)
  {
    var n := |Keys(c)|;
    if n > 1 {
      match a
      case DisableKey(ix) => if GoodIndex(ix, n) { DisabledView(Keys(c), c.st, ix.value, now(ix.value)); }
      case EnableKey(ix) => if GoodIndex(ix, n) { EnabledView(Keys(c), c.st, ix.value); }
      case EnableAllKeys => assert ViewOf(Keys(c), NoState) == AllEnabled(View(c));
      case DisableAllKeys =>
        DisabledToView(Keys(c), c.st, now);
      case DeleteKey(ix) => if GoodIndex(ix, n) { KeptCopyView(c, KeepAllBut(n, ix.value)); }
      case DeleteDisabledKeys => KeptCopyView(c, KeepUnlessAuto(View(c)));
      case Unsupported =>
    }
  }

  // --------------------------------------------------- where kept keys come from

  /** The old positions of the kept keys, in order. */
  function Origins(keep: seq<bool>): (from: seq<nat>)
    ensures forall j :: 0 <= j < |from| ==> from[j] < |keep|
  {
    if keep == [] then []
    else Origins(keep[..|keep| - 1]) + if keep[|keep| - 1] then [|keep| - 1] else []
  }

  lemma {:induction false} SelectOrigins<T>(s: seq<T>, keep: seq<bool>)
    requires |keep| == |s|
    ensures |Select(s, keep)| == |Origins(keep)|
    ensures forall j :: 0 <= j < |Origins(keep)| ==> Select(s, keep)[j] == s[Origins(keep)[j]]
  {
    if s != [] {
      var n := |s| - 1;
      SelectOrigins(s[..n], keep[..n]);
    }
  }

  /** A new map holds at `j` what the old one held at `i`. */
  ghost predicate Carries<T(!new)>(next: map<nat, T>, j: nat, old': map<nat, T>, i: nat) {
    (j in next <==> i in old') && (i in old' ==> next[j] == old'[i])
  }

  /** What the reindexed maps hold at each new position. */
  ghost predicate Moves(st: KeyState, next: KeyState, j: nat, i: nat) {
    && (j in next.status <==> StatusAt(st, i) != ENABLED) && (j in next.status ==> next.status[j] == st.status[i])
    && Carries(next.time, j, st.time, i) && Carries(next.reason, j, st.reason, i)
  }

  lemma {:induction false} ReindexedMoves(st: KeyState, keep: seq<bool>)
    ensures var (next, at) := Reindexed(st, keep);
            && at == |Origins(keep)| && Below(next, at)
            && forall j :: 0 <= j < at ==> Moves(st, next, j, Origins(keep)[j])
  {
    if keep != [] {
      var i := |keep| - 1;
      ReindexedMoves(st, keep[..i]);
      var (before, at) := Reindexed(st, keep[..i]);
      if keep[i] { MovedMoves(st, i, before, at, Origins(keep[..i])); }
    }
  }

  lemma MovedMoves(st: KeyState, i: nat, before: KeyState, at: nat, from: seq<nat>)
    requires at == |from| && Below(before, at) && forall j :: 0 <= j < at ==> Moves(st, before, j, from[j])
    ensures var next := Moved(st, i, before, at);
            Below(next, at + 1) && forall j :: 0 <= j < at + 1 ==> Moves(st, next, j, (from + [i])[j])
  {
    var next := Moved(st, i, before, at);
    forall j | 0 <= j < at + 1 ensures Moves(st, next, j, (from + [i])[j]) {
      if j < at { assert Moves(st, before, j, from[j]); }
    }
  }

  // ------------------------------------------------- when what is saved is right

  /** The old entry at the new position `j` does not show through the entry that
      moves there from `i`. */
  predicate Slides(st: KeyState, i: nat, j: nat) {
    if StatusAt(st, i) == ENABLED then StatusAt(st, j) == ENABLED
    else (j in st.time ==> i in st.time) && (j in st.reason ==> i in st.reason)
  }

  predicate SlidesOver(st: KeyState, keep: seq<bool>) {
    forall j :: 0 <= j < |Origins(keep)| ==> Slides(st, Origins(keep)[j], j)
  }

  /** Whether an action takes effect, told from the stored maps before the call:
      disabling always does; enabling only where nothing is disabled; deleting
      when some key is left and no old entry shows through. */
  predicate Sticks(c: Stored, a: Action) {
    var n := |Keys(c)|;
    n > 1 ==>
      match a
      case EnableKey(ix) => GoodIndex(ix, n) ==> StatusAt(c.st, ix.value) == ENABLED
      case EnableAllKeys => forall i :: 0 <= i < n ==> StatusAt(c.st, i) == ENABLED
      case DeleteKey(ix) => GoodIndex(ix, n) ==> SlidesOver(c.st, KeepAllBut(n, ix.value))
      case DeleteDisabledKeys =>
        NoneHas(View(c), AUTO_DISABLED)
        || (Origins(KeepUnlessAuto(View(c))) != [] && SlidesOver(c.st, KeepUnlessAuto(View(c))))
      case _ => true
  }

  lemma OverlaidEntry(key: string, st: KeyState, next: KeyState, i: nat, j: nat)
    requires Moves(st, next, j, i)
    ensures EntryAt(key, Overlaid(st, next), j) == EntryAt(key, st, i) <==> Slides(st, i, j)
  {
  }

  /** A rejoined text is blank exactly when no key is left. */
  lemma KeptTextBlank(c: Stored, keep: seq<bool>)
    requires |keep| == |Keys(c)|
    ensures Trim(KeptCopy(c, keep).text) == "" <==> Origins(keep) == []
  {
    var copy := KeptCopy(c, keep);
    KeptCopyView(c, keep);
    SelectOrigins(Keys(c), keep);
    if Trim(copy.text) == "" {
      KeysAreFragments(copy.text);
      BlankFragments(copy.text, '\n');
    }
    if Origins(keep) == [] {
      assert copy.text == "";
    }
  }

  /** A deletion that leaves a key shows what it means exactly when it slides. */
  lemma DeleteExact(c: Stored, keep: seq<bool>)
    requires |keep| == |Keys(c)| && Origins(keep) != []
    ensures var saved := Saved(c, KeptCopy(c, keep));
            && Keys(saved) == Select(Keys(c), keep)
            && (View(saved) == Select(View(c), keep) <==> SlidesOver(c.st, keep))
            && (Below(saved.st, |Keys(saved)|) <==> Below(c.st, |Keys(saved)|))
  {
    KeptTextBlank(c, keep);
    KeptCopyView(c, keep);
    SelectOrigins(Keys(c), keep);
    SelectOrigins(View(c), keep);
    ReindexedMoves(c.st, keep);
    var saved, from := Saved(c, KeptCopy(c, keep)), Origins(keep);
    forall j | 0 <= j < |from| ensures View(saved)[j] == Select(View(c), keep)[j] <==> Slides(c.st, from[j], j) {
      OverlaidEntry(Keys(c)[from[j]], c.st, Reindexed(c.st, keep).0, from[j], j);
    }
    EntriesAgree(View(saved), Select(View(c), keep), c.st, from);
    OverlaidBelow(c.st, Reindexed(c.st, keep).0, |from|);
  }

  lemma EntriesAgree(a: seq<Entry>, b: seq<Entry>, st: KeyState, from: seq<nat>)
    requires |a| == |b| == |from| && forall j :: 0 <= j < |from| ==> (a[j] == b[j] <==> Slides(st, from[j], j))
    ensures a == b <==> forall j :: 0 <= j < |from| ==> Slides(st, from[j], j)
  {
  }

  lemma OverlaidBelow(st: KeyState, next: KeyState, n: nat)
    requires Below(next, n)
    ensures Below(Overlaid(st, next), n) <==> Below(st, n)
  {
    if Below(Overlaid(st, next), n) {
      forall i | i in st.status ensures i < n { assert i in Overlaid(st, next).status; }
      forall i | i in st.time ensures i < n { assert i in Overlaid(st, next).time; }
      forall i | i in st.reason ensures i < n { assert i in Overlaid(st, next).reason; }
    }
  }

  lemma OverlayRestores(st: KeyState, i: nat)
    ensures Overlaid(st, EnabledAt(st, i)) == st && Overlaid(st, NoState) == st
  {
    assert st.status + (st.status - {i}) == st.status && st.status + map[] == st.status;
    assert st.time + (st.time - {i}) == st.time && st.time + map[] == st.time;
    assert st.reason + (st.reason - {i}) == st.reason && st.reason + map[] == st.reason;
  }

  /** Enabling one key or all of them stores nothing: what the copy dropped, the
      overlay brings back. */
  lemma EnablingStoresNothing(c: Stored, i: nat, now: nat -> int)
    requires Trim(c.text) != ""
    ensures Acted(c, EnableKey(Some(i)), now) == c && Acted(c, EnableAllKeys, now) == c
  {
    OverlayRestores(c.st, i);
  }

  lemma OverlaySame<T>(m: map<nat, T>, at: set<nat>, value: nat -> T, i: nat, v: T)
    ensures m + m[i := v] == m[i := v] && m + Written(m, at, value) == Written(m, at, value)
  {
  }

  /** Disabling is stored as it is. */
  lemma DisablingIsStored(st: KeyState, now: nat -> int, i: nat)
    ensures Overlaid(st, DisabledAt(st, i, now(i))) == DisabledAt(st, i, now(i))
    ensures Overlaid(st, DisabledTo(st, now, i)) == DisabledTo(st, now, i)
  {
    var on := EnabledTo(st, i);
    OverlaySame(st.status, on, Manual, i, MANUALLY_DISABLED);
    OverlaySame(st.time, on, now, i, now(i));
    OverlaySame(st.reason, on, ManualReason, i, MANUAL_REASON);
  }

  /** Deleting all auto-disabled keys when that is every key deletes none: the
      blank text is not stored, nor are the emptied maps. */
  lemma DeletingAllDeletesNone(c: Stored, now: nat -> int)
    requires |Keys(c)| > 1 && forall i :: 0 <= i < |Keys(c)| ==> StatusAt(c.st, i) == AUTO_DISABLED
    ensures Prepared(c, DeleteDisabledKeys, now).1 == Done && Acted(c, DeleteDisabledKeys, now) == c
  {
    var keep := KeepUnlessAuto(View(c));
    assert View(c)[0].status == AUTO_DISABLED;
    assert forall i :: 0 <= i < |keep| ==> !keep[i];
    NoneKept(c.st, keep);
    KeptTextBlank(c, keep);
    assert Overlaid(c.st, NoState) == c.st;
  }

  lemma {:induction false} NoneKept(st: KeyState, keep: seq<bool>)
    requires forall i :: 0 <= i < |keep| ==> !keep[i]
    ensures Origins(keep) == [] && Reindexed(st, keep) == (NoState, 0)
  {
    if keep != [] { NoneKept(st, keep[..|keep| - 1]); }
  }

  // --------------------------------------------------------- the exact condition

  /** Whether the stored channel shows what the action means. */
  predicate Right(c: Stored, a: Action, now: nat -> int) {
    View(Acted(c, a, now)) == Managed(View(c), a, now).0
  }

  lemma KeysNotBlank(c: Stored)
    requires |Keys(c)| > 0
    ensures Trim(c.text) != ""
  {
    if Trim(c.text) == "" {
      KeysAreFragments(c.text);
      BlankFragments(c.text, '\n');
    }
  }

  lemma EnableKeyExact(c: Stored, i: nat, now: nat -> int)
    requires |Keys(c)| > 1 && i < |Keys(c)|
    ensures Right(c, EnableKey(Some(i)), now) <==> StatusAt(c.st, i) == ENABLED
  {
    KeysNotBlank(c);
    EnablingStoresNothing(c, i, now);
    var v := View(c);
    assert v[i := Enabled(v[i])][i] == Enabled(v[i]);
    if StatusAt(c.st, i) == ENABLED { assert v[i := Enabled(v[i])] == v; }
  }

  lemma EnableAllExact(c: Stored, now: nat -> int)
    requires |Keys(c)| > 1
    ensures Right(c, EnableAllKeys, now) <==> forall i :: 0 <= i < |Keys(c)| ==> StatusAt(c.st, i) == ENABLED
  {
    KeysNotBlank(c);
    EnablingStoresNothing(c, 0, now);
    var v := View(c);
    if v == AllEnabled(v) {
      forall i | 0 <= i < |Keys(c)| ensures StatusAt(c.st, i) == ENABLED { assert v[i] == Enabled(v[i]); }
    } else {
      assert exists i :: 0 <= i < |v| && v[i] != AllEnabled(v)[i];
    }
  }

  lemma DisableRight(c: Stored, a: Action, now: nat -> int)
    requires |Keys(c)| > 1 && (a.DisableKey? || a.DisableAllKeys?)
    ensures Right(c, a, now)
    ensures Below(c.st, |Keys(c)|) ==> Below(Acted(c, a, now).st, |Keys(c)|)
    ensures Keys(Acted(c, a, now)) == Keys(c)
  {
    KeysNotBlank(c);
    CopyIsRight(c, a, now);
    match a
    case DisableKey(ix) => if ix.Some? { DisablingIsStored(c.st, now, ix.value); }
    case DisableAllKeys =>
      DisablingIsStored(c.st, now, |Keys(c)|);
      if Below(c.st, |Keys(c)|) { DisabledToBelow(c.st, now, |Keys(c)|); }
  }

  lemma DeleteDisabledExact(c: Stored, now: nat -> int)
    requires |Keys(c)| > 1
    ensures Right(c, DeleteDisabledKeys, now) <==> Sticks(c, DeleteDisabledKeys)
  {
    var keep := KeepUnlessAuto(View(c));
    if !NoneHas(View(c), AUTO_DISABLED) {
      if Origins(keep) == [] { NothingKeptIsWrong(c, keep); } else { DeleteExact(c, keep); }
    }
  }

  lemma NothingKeptIsWrong(c: Stored, keep: seq<bool>)
    requires |Keys(c)| > 1 && |keep| == |Keys(c)| && Origins(keep) == []
    ensures View(Saved(c, KeptCopy(c, keep))) != Select(View(c), keep)
  {
    KeptTextBlank(c, keep);
    SelectOrigins(View(c), keep);
  }

  lemma KeepAllButSome(n: nat, i: nat)
    requires n > 1
    ensures Origins(KeepAllBut(n, i)) != []
  {
    var keep := KeepAllBut(n, i);
    var k := if i == 0 then 1 else 0;
    assert keep[k];
    SomeKept(keep, k);
  }

  lemma {:induction false} SomeKept(keep: seq<bool>, k: nat)
    requires k < |keep| && keep[k]
    ensures Origins(keep) != []
  {
    if k < |keep| - 1 { SomeKept(keep[..|keep| - 1], k); }
  }

  /** For every action: the stored channel shows what the action means if and only
      if the action sticks, a condition on the stored maps before the call. */
  lemma ActionExact(c: Stored, a: Action, now: nat -> int)
    ensures Right(c, a, now) <==> Sticks(c, a)
  {
    var n := |Keys(c)|;
    if n > 1 {
      match a
      case DisableKey(ix) => DisableRight(c, a, now);
      case DisableAllKeys => DisableRight(c, a, now);
      case EnableKey(ix) => if GoodIndex(ix, n) { EnableKeyExact(c, ix.value, now); }
      case EnableAllKeys => EnableAllExact(c, now);
      case DeleteKey(ix) =>
        if GoodIndex(ix, n) {
          KeepAllButSome(n, ix.value);
          DeleteExact(c, KeepAllBut(n, ix.value));
        }
      case DeleteDisabledKeys => DeleteDisabledExact(c, now);
      case Unsupported =>
    }
  }

  /** The key count after a deletion. */
  function CountAfter(c: Stored, a: Action): nat {
    var n := |Keys(c)|;
    if n > 1 && a.DeleteKey? && GoodIndex(a.index, n) then n - 1
    else if n > 1 && a.DeleteDisabledKeys? && Origins(KeepUnlessAuto(View(c))) != []
    then |Origins(KeepUnlessAuto(View(c)))|
    else n
  }

  lemma {:induction false} OriginsAllBut(n: nat, i: nat)
    ensures |Origins(KeepAllBut(n, i))| == if i < n then n - 1 else n
    ensures forall j :: 0 <= j < |Origins(KeepAllBut(n, i))| ==>
              Origins(KeepAllBut(n, i))[j] == if j < i then j else j + 1
  {
    if n > 0 {
      OriginsAllBut(n - 1, i);
      assert KeepAllBut(n, i)[..n - 1] == KeepAllBut(n - 1, i);
    }
  }

  lemma {:induction false} OriginsAll(keep: seq<bool>)
    requires forall i :: 0 <= i < |keep| ==> keep[i]
    ensures |Origins(keep)| == |keep|
  {
    if keep != [] { OriginsAll(keep[..|keep| - 1]); }
  }

  /** The bound on stored indexes after an action, exactly: the maps that were
      stored must already lie below the new key count. */
  lemma BoundExact(c: Stored, a: Action, now: nat -> int)
    requires Below(c.st, |Keys(c)|)
    ensures |Keys(Acted(c, a, now))| == CountAfter(c, a)
    ensures Below(Acted(c, a, now).st, CountAfter(c, a)) <==> Below(c.st, CountAfter(c, a))
  {
    var n := |Keys(c)|;
    if n > 1 {
      KeysNotBlank(c);
      match a
      case DisableKey(ix) => DisableRight(c, a, now);
      case DisableAllKeys => DisableRight(c, a, now);
      case EnableKey(ix) => if ix.Some? { EnablingStoresNothing(c, ix.value, now); }
      case EnableAllKeys => EnablingStoresNothing(c, 0, now);
      case DeleteKey(ix) =>
        if GoodIndex(ix, n) {
          KeepAllButSome(n, ix.value);
          OriginsAllBut(n, ix.value);
          DeleteCounts(c, KeepAllBut(n, ix.value));
        }
      case DeleteDisabledKeys => DeleteDisabledBound(c, now);
      case Unsupported =>
    }
  }

  lemma DeleteCounts(c: Stored, keep: seq<bool>)
    requires |keep| == |Keys(c)| && Origins(keep) != []
    ensures var saved := Saved(c, KeptCopy(c, keep));
            && |Keys(saved)| == |Origins(keep)|
            && (Below(saved.st, |Origins(keep)|) <==> Below(c.st, |Origins(keep)|))
  {
    DeleteExact(c, keep);
    SelectOrigins(Keys(c), keep);
  }

  lemma DeleteDisabledBound(c: Stored, now: nat -> int)
    requires |Keys(c)| > 1 && Below(c.st, |Keys(c)|)
    ensures |Keys(Acted(c, DeleteDisabledKeys, now))| == CountAfter(c, DeleteDisabledKeys)
    ensures Below(Acted(c, DeleteDisabledKeys, now).st, CountAfter(c, DeleteDisabledKeys))
       <==> Below(c.st, CountAfter(c, DeleteDisabledKeys))
  {
    var keep := KeepUnlessAuto(View(c));
    if NoneHas(View(c), AUTO_DISABLED) {
      OriginsAll(keep);
    } else if Origins(keep) != [] {
      DeleteCounts(c, keep);
    } else {
      NothingKeptSaves(c, keep);
    }
  }

  /** A deletion that would leave no key stores nothing. */
  lemma NothingKeptSaves(c: Stored, keep: seq<bool>)
    requires |keep| == |Keys(c)| && Origins(keep) == []
    ensures Saved(c, KeptCopy(c, keep)) == c
  {
    KeptTextBlank(c, keep);
    if k :| 0 <= k < |keep| && keep[k] { SomeKept(keep, k); }
    NoneKept(c.st, keep);
    OverlayRestores(c.st, 0);
  }

  // ------------------------------------------------------------------ failures

  /** Which key, and which status, a deletion leaves at each position: the moved
      key's own status when that key is disabled, and otherwise the status that
      another key had at this position. */
  lemma DeletedStatus(c: Stored, i: nat, j: nat, now: nat -> int)
    requires i < |Keys(c)| && |Keys(c)| > 1 && j < |Keys(c)| - 1
    ensures var after, from := Acted(c, DeleteKey(Some(i)), now), if j < i then j else j + 1;
            && |Keys(after)| == |Keys(c)| - 1
            && Keys(after)[j] == Keys(c)[from]
            && StatusAt(after.st, j) == StatusAt(c.st, if StatusAt(c.st, from) != ENABLED then from else j)
  {
    var n := |Keys(c)|;
    var keep := KeepAllBut(n, i);
    DeleteKeyStored(c, i, now);
    OriginsAllBut(n, i);
    SelectOrigins(Keys(c), keep);
    KeptStatus(c.st, keep, j);
  }

  lemma DeleteKeyStored(c: Stored, i: nat, now: nat -> int)
    requires i < |Keys(c)| && |Keys(c)| > 1
    ensures var after, keep := Acted(c, DeleteKey(Some(i)), now), KeepAllBut(|Keys(c)|, i);
            Keys(after) == Select(Keys(c), keep) && after.st == Overlaid(c.st, Reindexed(c.st, keep).0)
  {
    KeepAllButSome(|Keys(c)|, i);
    KeptKeys(c, KeepAllBut(|Keys(c)|, i));
    DeleteKeySaves(c, i, now);
  }

  lemma DeleteKeySaves(c: Stored, i: nat, now: nat -> int)
    requires i < |Keys(c)| && |Keys(c)| > 1
    ensures Acted(c, DeleteKey(Some(i)), now) == Saved(c, KeptCopy(c, KeepAllBut(|Keys(c)|, i)))
  {
  }

  lemma KeptKeys(c: Stored, keep: seq<bool>)
    requires |keep| == |Keys(c)| && Origins(keep) != []
    ensures Keys(Saved(c, KeptCopy(c, keep))) == Select(Keys(c), keep)
    ensures Saved(c, KeptCopy(c, keep)).st == Overlaid(c.st, Reindexed(c.st, keep).0)
  {
    KeptTextBlank(c, keep);
    KeptCopyView(c, keep);
  }

  lemma KeptStatus(st: KeyState, keep: seq<bool>, j: nat)
    requires j < |Origins(keep)|
    ensures var from := Origins(keep)[j];
            StatusAt(Overlaid(st, Reindexed(st, keep).0), j)
            == StatusAt(st, if StatusAt(st, from) != ENABLED then from else j)
  {
    ReindexedMoves(st, keep);
    assert Moves(st, Reindexed(st, keep).0, j, Origins(keep)[j]);
  }

  /** Three keys, the first auto-disabled: deleting it shows the second one
      auto-disabled instead. */
  lemma DeletionPassesOnStatus(keys: seq<string>, st: KeyState, now: nat -> int)
    requires |keys| == 3 && (forall k | k in keys :: Fragment(k, '\n')) && st.status == map[0 := AUTO_DISABLED]
    ensures var after := Acted(Stored(Join(keys, '\n'), st), DeleteKey(Some(0)), now);
            |Keys(after)| == 2 && Keys(after)[0] == keys[1] && StatusAt(after.st, 0) == AUTO_DISABLED
  {
    KeysSurviveJoin(keys);
    FirstPassesOn(Stored(Join(keys, '\n'), st), now);
  }

  lemma FirstPassesOn(c: Stored, now: nat -> int)
    requires |Keys(c)| == 3 && c.st.status == map[0 := AUTO_DISABLED]
    ensures var after := Acted(c, DeleteKey(Some(0)), now);
            |Keys(after)| == 2 && Keys(after)[0] == Keys(c)[1] && StatusAt(after.st, 0) == AUTO_DISABLED
  {
    DeletedStatus(c, 0, 0, now);
  }

  /** With the last one auto-disabled instead, the deletion leaves an index that
      no key has. */
  lemma DeletionLeavesIndex(keys: seq<string>, st: KeyState, now: nat -> int)
    requires |keys| == 3 && (forall k | k in keys :: Fragment(k, '\n'))
    requires st == NoState.(status := map[2 := AUTO_DISABLED])
    ensures var after := Acted(Stored(Join(keys, '\n'), st), DeleteKey(Some(0)), now);
            |Keys(after)| == 2 && StatusAt(after.st, 1) == AUTO_DISABLED && !Below(after.st, 2)
  {
    var c := Stored(Join(keys, '\n'), st);
    KeysSurviveJoin(keys);
    DeletedStatus(c, 0, 1, now);
    BoundExact(c, DeleteKey(Some(0)), now);
    assert 2 in st.status;
  }

  // ------------------------------------------------------------ the service call

  /** The stored channel, updated in place. */
  class MultiKeyChannel {
    var key: string
    var state: KeyState

    constructor (text: string, st: KeyState)
      ensures Contents() == Stored(text, st)
    {
      key, state := text, st;
    }

    function Contents(): Stored
      reads this
    {
      Stored(key, state)
    }

    /** The store's update: a blank key text is not taken over, and the settings
        are overlaid. */
    method Save(copy: Stored)
      modifies this
      ensures Contents() == Saved(old(Contents()), copy)
    {
      if Trim(copy.text) != "" { key := copy.text; }
      state := Overlaid(state, copy.st);
    }

    /** One management action with nothing between its read and its save: the copy
        always shows what the action means, and the stored channel shows it exactly
        when the action sticks. */
    method Manage(a: Action, now: nat -> int) returns (reply: Reply)
      modifies this
      ensures reply == Managed(old(View(Contents())), a, now).1
      ensures Contents() == Acted(old(Contents()), a, now)
      ensures View(Contents()) == Managed(old(View(Contents())), a, now).0 <==> Sticks(old(Contents()), a)
      ensures reply != Done ==> Contents() == old(Contents())
    {
      ghost var c := Contents();
      CopyIsRight(c, a, now);
      ActionExact(c, a, now);
      var copy;
      copy, reply := Prepare(Contents(), a, now);
      if reply == Done { Save(copy); }
    }
  }

  /** The changed copy of the channel that was read. */
  method Prepare(seen: Stored, a: Action, now: nat -> int) returns (copy: Stored, reply: Reply)
    ensures (copy, reply) == Prepared(seen, a, now)
  {
    copy, reply := seen, Refused;
    var keys := ChannelKeys(seen.text);
    if |keys| <= 1 { return; }
    match a
    case DisableKey(ix) =>
      if !GoodIndex(ix, |keys|) { return copy, BadIndex; }
      return copy.(st := DisabledAt(seen.st, ix.value, now(ix.value))), Done;
    case EnableKey(ix) =>
      if !GoodIndex(ix, |keys|) { return copy, BadIndex; }
      return copy.(st := EnabledAt(seen.st, ix.value)), Done;
    case EnableAllKeys =>
      return copy.(st := NoState), Done;
    case DisableAllKeys =>
      var next, disabled := DisableLoop(keys, seen.st, now);
      if disabled == 0 { return; }
      return copy.(st := next), Done;
    case DeleteKey(ix) =>
      if !GoodIndex(ix, |keys|) { return copy, BadIndex; }
      copy := Keep(seen, keys, KeepAllBut(|keys|, ix.value));
      return copy, Done;
    case DeleteDisabledKeys =>
      if NoneHas(View(seen), AUTO_DISABLED) { return; }
      copy := Keep(seen, keys, KeepUnlessAuto(View(seen)));
      return copy, Done;
    case Unsupported =>
  }

  method Keep(seen: Stored, keys: seq<string>, keep: seq<bool>) returns (copy: Stored)
    requires keys == Keys(seen) && |keep| == |keys|
    ensures copy == KeptCopy(seen, keep)
  {
    var remaining := SelectKeys(keys, keep);
    var next := Reindex(seen.st, keep);
    copy := Stored(Join(remaining, '\n'), next);
  }
}
