/** Multi-key channels: a newline-joined key text with three maps, from key
    index to status, disable time and disable reason, that must stay aligned
    with it. */
module MultiKey {
  import opened Prelude
  import opened Text

  /** The three maps kept in the channel setting. A missing status means 1. */
  datatype KeyState = KeyState(status: map<nat, int>, time: map<nat, int>, reason: map<nat, string>)

  const ENABLED := 1
  const MANUALLY_DISABLED := 2
  const AUTO_DISABLED := 3
  const MANUAL_REASON := "manual disabled"
  const NoState := KeyState(map[], map[], map[])

  /** What an operator sees of one key: time and reason only when disabled. */
  datatype Entry = Entry(key: string, status: int, time: Option<int>, reason: Option<string>)

  function Get<T>(m: map<nat, T>, i: nat): Option<T> {
    if i in m then Some(m[i]) else None
  }

  function StatusAt(st: KeyState, i: nat): int {
    if i in st.status then st.status[i] else ENABLED
  }

  function EntryAt(key: string, st: KeyState, i: nat): Entry {
    var status := StatusAt(st, i);
    if status == ENABLED then Entry(key, status, None, None)
    else Entry(key, status, Get(st.time, i), Get(st.reason, i))
  }

  function ViewOf(keys: seq<string>, st: KeyState): (view: seq<Entry>)
    ensures |view| == |keys|
    ensures forall i :: 0 <= i < |keys| ==> view[i] == EntryAt(keys[i], st, i)
  {
    seq(|keys|, i requires 0 <= i < |keys| => EntryAt(keys[i], st, i))
  }

  /** `channel_keys`: the non-empty trimmed lines. */
  function ChannelKeys(text: string): seq<string> {
    Clean(Lines(text))
  }

  lemma KeysAreFragments(text: string)
    ensures ChannelKeys(text) == Fragments(text, '\n')
    ensures forall k | k in ChannelKeys(text) :: Fragment(k, '\n')
  {
    CleanLines(Split(text, '\n'));
    FragmentsShape(text, '\n');
  }

  /** Joining keys with newlines and splitting again loses nothing. */
  lemma KeysSurviveJoin(keys: seq<string>)
    requires forall k | k in keys :: Fragment(k, '\n')
    ensures ChannelKeys(Join(keys, '\n')) == keys
  {
    KeysAreFragments(Join(keys, '\n'));
    FragmentsJoin(keys, '\n');
  }

  // ---------------------------------------------------------------- reindexing

  function Select<T>(s: seq<T>, keep: seq<bool>): seq<T>
    requires |keep| == |s|
  {
    if s == [] then []
    else Select(s[..|s| - 1], keep[..|s| - 1]) + if keep[|s| - 1] then [s[|s| - 1]] else []
  }

  /** Entries of the kept indexes, moved to consecutive positions. */
  function Reindexed(st: KeyState, keep: seq<bool>): (KeyState, nat) {
    if keep == [] then (NoState, 0)
    else
      var i := |keep| - 1;
      var (next, at) := Reindexed(st, keep[..i]);
      if !keep[i] then (next, at)
      else (Moved(st, i, next, at), at + 1)
  }

  /** The entries of index `i`, put at position `at` of the new maps. */
  function Moved(st: KeyState, i: nat, next: KeyState, at: nat): KeyState {
    KeyState(
      if i in st.status && st.status[i] != ENABLED then next.status[at := st.status[i]] else next.status,
      if i in st.time then next.time[at := st.time[i]] else next.time,
      if i in st.reason then next.reason[at := st.reason[i]] else next.reason)
  }

  ghost predicate Below(st: KeyState, n: nat) {
    (forall i | i in st.status :: i < n) && (forall i | i in st.time :: i < n) && (forall i | i in st.reason :: i < n)
  }

  lemma MovedView(front: seq<string>, key: string, st: KeyState, i: nat, next: KeyState)
    requires Below(next, |front|)
    ensures Below(Moved(st, i, next, |front|), |front| + 1)
    ensures ViewOf(front + [key], Moved(st, i, next, |front|)) == ViewOf(front, next) + [EntryAt(key, st, i)]
  {
    var moved := Moved(st, i, next, |front|);
    forall j | 0 <= j < |front| ensures ViewOf(front + [key], moved)[j] == ViewOf(front, next)[j] {}
  }

  lemma SelectPush<T>(s: seq<T>, x: T, keep: seq<bool>, k: bool)
    requires |keep| == |s|
    ensures Select(s + [x], keep + [k]) == Select(s, keep) + if k then [x] else []
  {
    assert (s + [x])[..|s|] == s && (keep + [k])[..|s|] == keep;
  }

  lemma ReindexPush(st: KeyState, keep: seq<bool>, k: bool)
    ensures var (next, at) := Reindexed(st, keep);
            Reindexed(st, keep + [k]) == if k then (Moved(st, |keep|, next, at), at + 1) else (next, at)
  {
    assert (keep + [k])[..|keep|] == keep;
  }

  lemma ViewPush(keys: seq<string>, key: string, st: KeyState)
    ensures ViewOf(keys + [key], st) == ViewOf(keys, st) + [EntryAt(key, st, |keys|)]
  {
  }

  /** The reindexed maps show the kept keys as the old maps showed them. */
  ghost predicate Aligned(keys: seq<string>, st: KeyState, keep: seq<bool>)
    requires |keep| == |keys|
  {
    var (next, at) := Reindexed(st, keep);
    && at == |Select(keys, keep)| && Below(next, at)
    && ViewOf(Select(keys, keep), next) == Select(ViewOf(keys, st), keep)
  }

  lemma AlignedPush(keys: seq<string>, key: string, st: KeyState, keep: seq<bool>, k: bool)
    requires |keep| == |keys| && Aligned(keys, st, keep)
    ensures Aligned(keys + [key], st, keep + [k])
  {
    ReindexPush(st, keep, k);
    ViewPush(keys, key, st);
    SelectPush(keys, key, keep, k);
    SelectPush(ViewOf(keys, st), EntryAt(key, st, |keys|), keep, k);
    if k {
      MovedView(Select(keys, keep), key, st, |keys|, Reindexed(st, keep).0);
    } else {
      assert Select(keys, keep) + [] == Select(keys, keep);
    }
  }

  lemma {:induction false} ReindexAligned(keys: seq<string>, st: KeyState, keep: seq<bool>)
    requires |keep| == |keys|
    ensures Aligned(keys, st, keep)
  {
    if keys != [] {
      var i := |keys| - 1;
      ReindexAligned(keys[..i], st, keep[..i]);
      AlignedPush(keys[..i], keys[i], st, keep[..i], keep[i]);
      assert keys == keys[..i] + [keys[i]] && keep == keep[..i] + [keep[i]];
    }
  }

  // ------------------------------------------------------------------- actions

  datatype Action =
    | DisableKey(index: Option<nat>)
    | EnableKey(index: Option<nat>)
    | EnableAllKeys
    | DisableAllKeys
    | DeleteKey(index: Option<nat>)
    | DeleteDisabledKeys
    | Unsupported

  datatype Reply = Done | Refused | BadIndex

  predicate GoodIndex(index: Option<nat>, n: nat) {
    index.Some? && index.value < n
  }

  function Disabled(e: Entry, now: int): Entry {
    Entry(e.key, MANUALLY_DISABLED, Some(now), Some(MANUAL_REASON))
  }

  function Enabled(e: Entry): Entry {
    Entry(e.key, ENABLED, None, None)
  }

  function KeepAllBut(n: nat, index: nat): (keep: seq<bool>)
    ensures |keep| == n
  {
    seq(n, i => i != index)
  }

  function KeepUnlessAuto(view: seq<Entry>): (keep: seq<bool>)
    ensures |keep| == |view|
  {
    seq(|view|, i requires 0 <= i < |view| => view[i].status != AUTO_DISABLED)
  }

  function AllEnabled(view: seq<Entry>): (next: seq<Entry>)
    ensures |next| == |view| && forall i :: 0 <= i < |view| ==> next[i] == Enabled(view[i])
  {
    seq(|view|, i requires 0 <= i < |view| => Enabled(view[i]))
  }

  function AllDisabled(view: seq<Entry>, now: nat -> int): (next: seq<Entry>)
    ensures |next| == |view|
    ensures forall i :: 0 <= i < |view| ==>
              next[i] == if view[i].status == ENABLED then Disabled(view[i], now(i)) else view[i]
  {
    seq(|view|, i requires 0 <= i < |view| =>
          if view[i].status == ENABLED then Disabled(view[i], now(i)) else view[i])
  }

  predicate NoneHas(view: seq<Entry>, status: int) {
    forall i :: 0 <= i < |view| ==> view[i].status != status
  }

  /** What each action means on the list of entries alone; `now(i)` is the clock
      read for key `i`. */
  function Managed(view: seq<Entry>, a: Action, now: nat -> int): (seq<Entry>, Reply) {
    var n := |view|;
    if n <= 1 then (view, Refused)
    else match a
      case DisableKey(ix) =>
        if !GoodIndex(ix, n) then (view, BadIndex)
        else (view[ix.value := Disabled(view[ix.value], now(ix.value))], Done)
      case EnableKey(ix) =>
        if !GoodIndex(ix, n) then (view, BadIndex)
        else (view[ix.value := Enabled(view[ix.value])], Done)
      case EnableAllKeys => (AllEnabled(view), Done)
      case DisableAllKeys => if NoneHas(view, ENABLED) then (view, Refused) else (AllDisabled(view, now), Done)
      case DeleteKey(ix) =>
        if !GoodIndex(ix, n) then (view, BadIndex)
        else (Select(view, KeepAllBut(n, ix.value)), Done)
      case DeleteDisabledKeys =>
        if NoneHas(view, AUTO_DISABLED) then (view, Refused)
        else (Select(view, KeepUnlessAuto(view)), Done)
      case Unsupported => (view, Refused)
  }

  function DisabledAt(st: KeyState, i: nat, now: int): KeyState {
    KeyState(st.status[i := MANUALLY_DISABLED], st.time[i := now], st.reason[i := MANUAL_REASON])
  }

  function EnabledAt(st: KeyState, i: nat): KeyState {
    KeyState(st.status - {i}, st.time - {i}, st.reason - {i})
  }

  lemma DisabledView(keys: seq<string>, st: KeyState, i: nat, now: int)
    requires i < |keys|
    ensures ViewOf(keys, DisabledAt(st, i, now)) == ViewOf(keys, st)[i := Disabled(ViewOf(keys, st)[i], now)]
  {
  }

  lemma EnabledView(keys: seq<string>, st: KeyState, i: nat)
    requires i < |keys|
    ensures ViewOf(keys, EnabledAt(st, i)) == ViewOf(keys, st)[i := Enabled(ViewOf(keys, st)[i])]
  {
  }

  function EnabledTo(st: KeyState, n: nat): set<nat> {
    set i: nat | i < n && StatusAt(st, i) == ENABLED
  }

  function Written<T>(m: map<nat, T>, at: set<nat>, value: nat -> T): map<nat, T> {
    m + (map i | i in at :: value(i))
  }

  lemma WrittenNext<T>(m: map<nat, T>, at: set<nat>, value: nat -> T, n: nat)
    ensures Written(m, at + {n}, value) == Written(m, at, value)[n := value(n)]
  {
  }

  lemma WrittenAt<T>(m: map<nat, T>, at: set<nat>, value: nat -> T, i: nat)
    ensures Get(Written(m, at, value), i) == if i in at then Some(value(i)) else Get(m, i)
  {
  }

  function Manual(i: nat): int {
    MANUALLY_DISABLED
  }

  function ManualReason(i: nat): string {
    MANUAL_REASON
  }

  /** The maps when the disable-all loop has passed the first `n` keys. */
  function DisabledTo(st: KeyState, now: nat -> int, n: nat): KeyState {
    var on := EnabledTo(st, n);
    KeyState(Written(st.status, on, Manual), Written(st.time, on, now), Written(st.reason, on, ManualReason))
  }

  lemma EnabledToNext(st: KeyState, n: nat)
    ensures EnabledTo(st, n + 1) == if StatusAt(st, n) == ENABLED then EnabledTo(st, n) + {n} else EnabledTo(st, n)
    ensures n !in EnabledTo(st, n)
  {
  }

  lemma StatusIsGet(st: KeyState, i: nat)
    ensures StatusAt(st, i) == match Get(st.status, i) case Some(v) => v case None => ENABLED
  {
  }

  lemma DisabledToNext(st: KeyState, now: nat -> int, n: nat)
    ensures StatusAt(DisabledTo(st, now, n), n) == StatusAt(st, n)
    ensures DisabledTo(st, now, n + 1)
         == if StatusAt(st, n) == ENABLED then DisabledAt(DisabledTo(st, now, n), n, now(n)) else DisabledTo(st, now, n)
  {
    var on := EnabledTo(st, n);
    EnabledToNext(st, n);
    StatusIsGet(st, n);
    StatusIsGet(DisabledTo(st, now, n), n);
    WrittenAt(st.status, on, Manual, n);
    WrittenNext(st.status, on, Manual, n);
    WrittenNext(st.time, on, now, n);
    WrittenNext(st.reason, on, ManualReason, n);
  }

  lemma DisabledToEntry(key: string, st: KeyState, now: nat -> int, n: nat, i: nat)
    requires i < n
    ensures EntryAt(key, DisabledTo(st, now, n), i)
         == if StatusAt(st, i) == ENABLED then Disabled(EntryAt(key, st, i), now(i)) else EntryAt(key, st, i)
  {
    var on, next := EnabledTo(st, n), DisabledTo(st, now, n);
    StatusIsGet(st, i);
    StatusIsGet(next, i);
    WrittenAt(st.status, on, Manual, i);
    WrittenAt(st.time, on, now, i);
    WrittenAt(st.reason, on, ManualReason, i);
  }

  lemma DisabledToBelow(st: KeyState, now: nat -> int, n: nat)
    requires Below(st, n)
    ensures Below(DisabledTo(st, now, n), n)
  {
  }

  lemma DisabledToView(keys: seq<string>, st: KeyState, now: nat -> int)
    ensures ViewOf(keys, DisabledTo(st, now, |keys|)) == AllDisabled(ViewOf(keys, st), now)
  {
    forall i | 0 <= i < |keys|
      ensures ViewOf(keys, DisabledTo(st, now, |keys|))[i] == AllDisabled(ViewOf(keys, st), now)[i]
    {
      DisabledToEntry(keys[i], st, now, |keys|, i);
    }
  }

  lemma NoneEnabled(keys: seq<string>, st: KeyState)
    ensures EnabledTo(st, |keys|) == {} <==> NoneHas(ViewOf(keys, st), ENABLED)
  {
    var was := ViewOf(keys, st);
    forall i: nat | i < |keys| ensures was[i].status == ENABLED <==> i in EnabledTo(st, |keys|) {}
    if i :| i in EnabledTo(st, |keys|) { assert was[i].status == ENABLED; }
  }

  /** Disables the enabled keys one by one and counts them. */
  method DisableLoop(keys: seq<string>, st: KeyState, now: nat -> int) returns (next: KeyState, disabled: nat)
    ensures disabled == 0 <==> NoneHas(ViewOf(keys, st), ENABLED)
    ensures ViewOf(keys, next) == AllDisabled(ViewOf(keys, st), now)
    ensures next == DisabledTo(st, now, |keys|)
    ensures Below(st, |keys|) ==> Below(next, |keys|)
  {
    next, disabled := st, 0;
    DisabledToNone(st, now);
    for i := 0 to |keys|
      invariant next == DisabledTo(st, now, i)
      invariant disabled == |EnabledTo(st, i)|
    {
      DisabledToNext(st, now, i);
      EnabledCount(st, i);
      if StatusAt(next, i) == ENABLED {
        next, disabled := DisabledAt(next, i, now(i)), disabled + 1;
      }
    }
    DisableDone(keys, st, now);
  }

  lemma DisabledToNone(st: KeyState, now: nat -> int)
    ensures EnabledTo(st, 0) == {} && DisabledTo(st, now, 0) == st
  {
    assert EnabledTo(st, 0) == {};
  }

  lemma EnabledCount(st: KeyState, i: nat)
    ensures |EnabledTo(st, i + 1)| == |EnabledTo(st, i)| + if StatusAt(st, i) == ENABLED then 1 else 0
  {
    EnabledToNext(st, i);
  }

  lemma DisableDone(keys: seq<string>, st: KeyState, now: nat -> int)
    ensures |EnabledTo(st, |keys|)| == 0 <==> NoneHas(ViewOf(keys, st), ENABLED)
    ensures ViewOf(keys, DisabledTo(st, now, |keys|)) == AllDisabled(ViewOf(keys, st), now)
    ensures Below(st, |keys|) ==> Below(DisabledTo(st, now, |keys|), |keys|)
  {
    DisabledToView(keys, st, now);
    NoneEnabled(keys, st);
    if Below(st, |keys|) { DisabledToBelow(st, now, |keys|); }
  }

  method SelectKeys(keys: seq<string>, keep: seq<bool>) returns (remaining: seq<string>)
    requires |keep| == |keys|
    ensures remaining == Select(keys, keep)
  {
    remaining := [];
    for i := 0 to |keys|
      invariant remaining == Select(keys[..i], keep[..i])
    {
      SelectPush(keys[..i], keys[i], keep[..i], keep[i]);
      assert keys[..i + 1] == keys[..i] + [keys[i]] && keep[..i + 1] == keep[..i] + [keep[i]];
      if keep[i] { remaining := remaining + [keys[i]]; }
    }
    assert keys[..|keys|] == keys && keep[..|keys|] == keep;
  }

  /** The rejoined text of the kept keys holds exactly those keys, line by line. */
  lemma RetainedText(text: string, keep: seq<bool>)
    requires |keep| == |ChannelKeys(text)|
    ensures var joined := Join(Select(ChannelKeys(text), keep), '\n');
            ChannelKeys(joined) == Select(ChannelKeys(text), keep) && Compact(Lines(joined))
  {
    KeysAreFragments(text);
    SelectSubset(ChannelKeys(text), keep);
    KeysSurviveJoin(Select(ChannelKeys(text), keep));
    JoinCompact(Select(ChannelKeys(text), keep));
  }

  method Reindex(st: KeyState, keep: seq<bool>) returns (next: KeyState)
    ensures next == Reindexed(st, keep).0
  {
    next := NoState;
    var at: nat := 0;
    for i := 0 to |keep|
      invariant (next, at) == Reindexed(st, keep[..i])
    {
      assert keep[..i + 1][..i] == keep[..i];
      if keep[i] {
        if i in st.status && st.status[i] != ENABLED {
          next := next.(status := next.status[at := st.status[i]]);
        }
        if i in st.time { next := next.(time := next.time[at := st.time[i]]); }
        if i in st.reason { next := next.(reason := next.reason[at := st.reason[i]]); }
        at := at + 1;
      }
    }
    assert keep[..|keep|] == keep;
  }

  lemma {:induction false} SelectSubset<T>(s: seq<T>, keep: seq<bool>)
    requires |keep| == |s|
    ensures forall x | x in Select(s, keep) :: x in s
  {
    if s != [] { SelectSubset(s[..|s| - 1], keep[..|s| - 1]); }
  }

  // ---------------------------------------- disabling from gateway feedback

  predicate Blank(line: string) {
    Trim(line) == ""
  }

  /** Indexes of the non-blank lines, counting every line: the index a gateway
      report uses. */
  function KeyLines(lines: seq<string>): seq<nat> {
    if lines == [] then []
    else KeyLines(lines[..|lines| - 1]) + if Blank(lines[|lines| - 1]) then [] else [|lines| - 1]
  }

  /** `auto_disable_channel_in_place` for one key of several. */
  function AutoDisabled(text: string, st: KeyState, index: nat, reason: string, time: int): KeyState {
    var at := KeyLines(Lines(text));
    if index !in at || |at| <= 1 then st else AutoDisabledAt(st, index, reason, time)
  }

  function AutoDisabledAt(st: KeyState, i: nat, reason: string, time: int): KeyState {
    KeyState(st.status[i := AUTO_DISABLED], st.time[i := time], st.reason[i := reason])
  }

  lemma AutoDisabledView(keys: seq<string>, st: KeyState, i: nat, reason: string, time: int, k: nat)
    requires k < |keys|
    ensures var was, next := ViewOf(keys, st), ViewOf(keys, AutoDisabledAt(st, i, reason, time));
            && (i == k ==> next == was[k := Entry(keys[k], AUTO_DISABLED, Some(time), Some(reason))])
            && (i != k ==> next[k] == was[k])
    ensures i == k && Below(st, |keys|) ==> Below(AutoDisabledAt(st, i, reason, time), |keys|)
  {
  }

  /** No blank line stands before a key. */
  ghost predicate Compact(lines: seq<string>) {
    forall i, j :: 0 <= i < j < |lines| && !Blank(lines[j]) ==> !Blank(lines[i])
  }

  lemma {:induction false} CleanAppend(a: seq<string>, b: seq<string>)
    ensures Clean(a + b) == Clean(a) + Clean(b)
  {
    if a == [] {
      assert a + b == b;
    } else {
      assert (a + b)[1..] == a[1..] + b;
      CleanAppend(a[1..], b);
    }
  }

  /** The k-th key is the trimmed text of the k-th non-blank line. */
  lemma {:induction false} KeyLinesMatch(lines: seq<string>)
    ensures |KeyLines(lines)| == |Clean(lines)|
    ensures forall k :: 0 <= k < |Clean(lines)| ==>
              && k <= KeyLines(lines)[k] < |lines| && !Blank(lines[KeyLines(lines)[k]])
              && Clean(lines)[k] == Trim(lines[KeyLines(lines)[k]])
  {
    if lines != [] {
      var front, last := lines[..|lines| - 1], lines[|lines| - 1];
      KeyLinesMatch(front);
      AllKeyLines(front);
      assert lines == front + [last];
      CleanAppend(front, [last]);
      assert Clean([last]) == if Blank(last) then [] else [Trim(last)];
    }
  }

  ghost predicate NoBlank(lines: seq<string>) {
    forall i :: 0 <= i < |lines| ==> !Blank(lines[i])
  }

  ghost predicate InOrder(at: seq<nat>) {
    forall k :: 0 <= k < |at| ==> at[k] == k
  }

  lemma InOrderPush(at: seq<nat>, n: nat)
    ensures InOrder(at + [n]) <==> InOrder(at) && |at| == n
  {
    var all := at + [n];
    assert all[|at|] == n;
    assert forall k :: 0 <= k < |at| ==> all[k] == at[k];
  }

  lemma CompactPush(front: seq<string>, last: string)
    ensures Compact(front + [last]) <==> Compact(front) && (Blank(last) || NoBlank(front))
  {
    var all := front + [last];
    assert all[|front|] == last;
    assert forall k :: 0 <= k < |front| ==> all[k] == front[k];
  }

  lemma {:induction false} CompactLines(lines: seq<string>)
    ensures Compact(lines) <==> InOrder(KeyLines(lines))
  {
    if lines != [] {
      var front, last := lines[..|lines| - 1], lines[|lines| - 1];
      CompactLines(front);
      AllKeyLines(front);
      assert lines == front + [last];
      CompactPush(front, last);
      KeyLinesPush(front, last);
      InOrderPush(KeyLines(front), |front|);
    }
  }

  lemma KeyLinesPush(front: seq<string>, last: string)
    ensures KeyLines(front + [last]) == if Blank(last) then KeyLines(front) else KeyLines(front) + [|front|]
  {
    assert (front + [last])[..|front|] == front;
  }

  /** Every line is a key line exactly when there are as many keys as lines. */
  lemma {:induction false} AllKeyLines(lines: seq<string>)
    ensures |KeyLines(lines)| <= |lines|
    ensures |KeyLines(lines)| == |lines| <==> NoBlank(lines)
  {
    if lines != [] {
      AllKeyLines(lines[..|lines| - 1]);
    }
  }

  /** Feedback about the k-th key changes that key's entry and no other when the
      text is compact; when a blank line shifts the line number, the reported
      key itself is left as it was. */
  lemma FeedbackHitsReportedKey(text: string, st: KeyState, k: nat, reason: string, time: int)
    requires k < |ChannelKeys(text)| && |ChannelKeys(text)| > 1
    ensures |KeyLines(Lines(text))| == |ChannelKeys(text)|
    ensures var keys, line := ChannelKeys(text), KeyLines(Lines(text))[k];
            var was, next := ViewOf(keys, st), ViewOf(keys, AutoDisabled(text, st, line, reason, time));
            && (line == k ==>
                  && next == was[k := Entry(keys[k], AUTO_DISABLED, Some(time), Some(reason))]
                  && (Below(st, |keys|) ==> Below(AutoDisabled(text, st, line, reason, time), |keys|)))
            && (line != k ==> next[k] == was[k])
  {
    KeyLinesMatch(Lines(text));
    var line := KeyLines(Lines(text))[k];
    assert line in KeyLines(Lines(text));
    assert AutoDisabled(text, st, line, reason, time) == AutoDisabledAt(st, line, reason, time);
    AutoDisabledView(ChannelKeys(text), st, line, reason, time, k);
  }

  /** Every line number equals its key number exactly when no blank line stands
      before a key. */
  lemma CompactExact(text: string)
    ensures |KeyLines(Lines(text))| == |ChannelKeys(text)|
    ensures Compact(Lines(text)) <==>
            forall k :: 0 <= k < |ChannelKeys(text)| ==> KeyLines(Lines(text))[k] == k
  {
    KeyLinesMatch(Lines(text));
    CompactLines(Lines(text));
  }

  /** A blank line misdirects feedback: the report about `b` disables `c`. */
  lemma BlankLineMisdirects()
    ensures var text := "a\n\nb\nc";
            var next := AutoDisabled(text, NoState, 2, "quota", 7);
            && ChannelKeys(text) == ["a", "b", "c"] && KeyLines(Lines(text)) == [0, 2, 3]
            && ViewOf(ChannelKeys(text), next)[1].status == ENABLED
            && ViewOf(ChannelKeys(text), next)[2].status == AUTO_DISABLED
  {
    ExampleLines();
    ExampleKeys();
  }

  lemma ExampleLines()
    ensures Lines("a\n\nb\nc") == ["a", "", "b", "c"]
  {
    var parts := ["a", "", "b", "c"];
    assert Join(parts[3..], '\n') == "c";
    assert Join(parts[2..], '\n') == "b\nc";
    assert Join(parts[1..], '\n') == "\nb\nc";
    assert Join(parts, '\n') == "a\n\nb\nc";
    SplitJoin(parts, '\n');
    assert LinesOf(parts[3..]) == ["c"];
    assert LinesOf(parts[2..]) == ["b", "c"];
    assert LinesOf(parts[1..]) == ["", "b", "c"];
  }

  lemma ExampleKeys()
    ensures Clean(["a", "", "b", "c"]) == ["a", "b", "c"]
    ensures KeyLines(["a", "", "b", "c"]) == [0, 2, 3]
  {
    var parts := ["a", "", "b", "c"];
    TrimFixed("a");
    TrimFixed("b");
    TrimFixed("c");
    assert Clean(parts[3..]) == ["c"];
    assert Clean(parts[2..]) == ["b", "c"];
    assert Clean(parts[1..]) == ["b", "c"];
    assert KeyLines(parts[..1]) == [0];
    assert parts[..2][..1] == parts[..1] && KeyLines(parts[..2]) == [0];
    assert parts[..3][..2] == parts[..2] && KeyLines(parts[..3]) == [0, 2];
  }

  /** Rejoined keys are compact. */
  lemma JoinCompact(keys: seq<string>)
    requires forall k | k in keys :: Fragment(k, '\n')
    ensures Compact(Lines(Join(keys, '\n')))
  {
    if keys == [] {
      assert Lines("") == [];
    } else {
      SplitJoin(keys, '\n');
      LinesNonBlank(keys);
    }
  }

  lemma {:induction false} LinesNonBlank(keys: seq<string>)
    requires forall k | k in keys :: Fragment(k, '\n')
    ensures forall i :: 0 <= i < |LinesOf(keys)| ==> !Blank(LinesOf(keys)[i])
  {
    if keys != [] {
      assert keys[0] in keys && forall k | k in keys[1..] :: k in keys;
      TrimFixed(keys[0]);
      TrimStripCr(keys[0]);
      LinesNonBlank(keys[1..]);
    }
  }

  // ---------------------------------------------------------------- whole runs

  datatype Event =
    | Act(action: Action, now: nat -> int)
    | Feedback(key: nat, reason: string, time: int)

  /** The entries after one event; feedback speaks of a compact key text. */
  function After(view: seq<Entry>, e: Event): seq<Entry> {
    match e
    case Act(a, now) => Managed(view, a, now).0
    case Feedback(k, reason, time) =>
      if k < |view| && |view| > 1 then view[k := Entry(view[k].key, AUTO_DISABLED, Some(time), Some(reason))]
      else view
  }

  function AfterAll(view: seq<Entry>, events: seq<Event>): seq<Entry> {
    if events == [] then view
    else After(AfterAll(view, events[..|events| - 1]), events[|events| - 1])
  }

  /** Whether an event is about the entry at position `i`. */
  predicate Targets(view: seq<Entry>, e: Event, i: nat)
    requires i < |view|
  {
    match e
    case Feedback(k, _, _) => k == i
    case Act(a, _) =>
      match a
      case DisableKey(ix) => ix == Some(i)
      case EnableKey(ix) => ix == Some(i)
      case EnableAllKeys => true
      case DisableAllKeys => view[i].status == ENABLED
      case _ => false
  }

  /** Which positions an event keeps. */
  function Survivors(view: seq<Entry>, e: Event): (keep: seq<bool>)
    ensures |keep| == |view|
  {
    if |view| > 1 && e.Act? && e.action.DeleteKey? && GoodIndex(e.action.index, |view|)
    then KeepAllBut(|view|, e.action.index.value)
    else if |view| > 1 && e.Act? && e.action.DeleteDisabledKeys? then KeepUnlessAuto(view)
    else seq(|view|, i => true)
  }

  /** For each current entry: its position at the start, and whether an event
      was about it since. */
  datatype Life = Life(origin: nat, touched: bool)

  function Lives(view: seq<Entry>, events: seq<Event>): seq<Life> {
    if events == [] then seq(|view|, (i: nat) => Life(i, false))
    else
      var before := AfterAll(view, events[..|events| - 1]);
      var lives := Lives(view, events[..|events| - 1]);
      var e := events[|events| - 1];
      if |lives| != |before| then []
      else Select(seq(|lives|, i requires 0 <= i < |lives| =>
                        Life(lives[i].origin, lives[i].touched || Targets(before, e, i))),
                  Survivors(before, e))
  }

  lemma {:induction false} SelectAll<T>(s: seq<T>, keep: seq<bool>)
    requires |keep| == |s| && forall i :: 0 <= i < |s| ==> keep[i]
    ensures Select(s, keep) == s
  {
    if s != [] {
      SelectAll(s[..|s| - 1], keep[..|s| - 1]);
      assert s == s[..|s| - 1] + [s[|s| - 1]];
    }
  }

  /** Selecting from two lists by the same marks keeps them paired, in order. */
  lemma {:induction false} SelectPaired<A, B>(s: seq<A>, t: seq<B>, keep: seq<bool>) returns (from: seq<nat>)
    requires |keep| == |s| == |t|
    ensures |from| == |Select(s, keep)| == |Select(t, keep)|
    ensures forall k :: 0 <= k < |from| ==>
              from[k] < |s| && Select(s, keep)[k] == s[from[k]] && Select(t, keep)[k] == t[from[k]]
    ensures forall k, l :: 0 <= k < l < |from| ==> from[k] < from[l]
  {
    if s == [] {
      from := [];
    } else {
      var n := |s| - 1;
      from := SelectPaired(s[..n], t[..n], keep[..n]);
      if keep[n] { from := from + [n]; }
    }
  }

  predicate Deletes(e: Event) {
    e.Act? && (e.action.DeleteKey? || e.action.DeleteDisabledKeys?)
  }

  lemma DeleteIsSelect(view: seq<Entry>, e: Event)
    requires Deletes(e)
    ensures After(view, e) == Select(view, Survivors(view, e))
  {
    if |view| <= 1 || (e.action.DeleteKey? && !GoodIndex(e.action.index, |view|)) {
      SelectAll(view, Survivors(view, e));
    } else if e.action.DeleteDisabledKeys? && NoneHas(view, AUTO_DISABLED) {
      SelectAll(view, Survivors(view, e));
    }
  }

  lemma EditInPlace(view: seq<Entry>, e: Event)
    requires !Deletes(e)
    ensures |After(view, e)| == |view| && Select(After(view, e), Survivors(view, e)) == After(view, e)
    ensures forall i :: 0 <= i < |view| ==>
              After(view, e)[i].key == view[i].key && (!Targets(view, e, i) ==> After(view, e)[i] == view[i])
  {
    SelectAll(After(view, e), Survivors(view, e));
  }

  lemma AfterIsSelected(view: seq<Entry>, e: Event) returns (mid: seq<Entry>)
    ensures |mid| == |view| && After(view, e) == Select(mid, Survivors(view, e))
    ensures forall i :: 0 <= i < |view| ==>
              mid[i].key == view[i].key && (!Targets(view, e, i) ==> mid[i] == view[i])
  {
    if Deletes(e) {
      DeleteIsSelect(view, e);
      mid := view;
    } else {
      EditInPlace(view, e);
      mid := After(view, e);
    }
  }

  /** Through any run of actions and feedback, the surviving entries are the
      original keys in their original order, and an entry no event was about
      still has its own status, time and reason. */
  lemma {:induction false} SurvivorsKeepTheirState(view: seq<Entry>, events: seq<Event>)
    ensures var now, lives := AfterAll(view, events), Lives(view, events);
            && |lives| == |now|
            && (forall i :: 0 <= i < |now| ==>
                  && lives[i].origin < |view| && now[i].key == view[lives[i].origin].key
                  && (!lives[i].touched ==> now[i] == view[lives[i].origin]))
            && (forall i, j :: 0 <= i < j < |now| ==> lives[i].origin < lives[j].origin)
  {
    if events != [] {
      var n := |events| - 1;
      SurvivorsKeepTheirState(view, events[..n]);
      var before, lives, e := AfterAll(view, events[..n]), Lives(view, events[..n]), events[n];
      var mid := AfterIsSelected(before, e);
      var marked := seq(|lives|, i requires 0 <= i < |lives| =>
                          Life(lives[i].origin, lives[i].touched || Targets(before, e, i)));
      var from := SelectPaired(mid, marked, Survivors(before, e));
    }
  }
}
