/** What each key action and each gateway report stores, field by field. */
module MultiKeyActions {
  import opened Prelude
  import opened Text
  import opened MultiKey
  import opened MultiKeyStore

  /** The status that storage gives index `i`; nothing stored is enabled, 1. */
  predicate Says(c: Stored, i: nat, status: int) {
    if i in c.st.status then c.st.status[i] == status else status == 1
  }

  predicate SomeSays(c: Stored, status: int) {
    exists i: nat :: i < |Keys(c)| && Says(c, i, status)
  }

  lemma NoneHasExact(c: Stored, status: int)
    ensures NoneHas(View(c), status) <==> !SomeSays(c, status)
  {
    forall i: nat | i < |Keys(c)| ensures View(c)[i].status == status <==> Says(c, i, status) {
    }
    if SomeSays(c, status) {
      var i: nat :| i < |Keys(c)| && Says(c, i, status);
      assert View(c)[i].status == status;
    }
  }

  /** What an operator sees at a position: the key, its status, and, unless it is
      enabled, since when and why. */
  lemma ShownExact(c: Stored, i: nat)
    requires i < |Keys(c)|
    ensures var e := View(c)[i];
            && e.key == Keys(c)[i] && Says(c, i, e.status)
            && e.time == (if e.status != 1 && i in c.st.time then Some(c.st.time[i]) else None)
            && e.reason == (if e.status != 1 && i in c.st.reason then Some(c.st.reason[i]) else None)
  {
  }

  /** The answer to an action, from the stored channel and the request. */
  lemma ReplyExact(c: Stored, a: Action, now: nat -> int)
    ensures var n, reply := |Keys(c)|, Prepared(c, a, now).1;
            && (reply == BadIndex <==>
                  && n > 1 && (a.DisableKey? || a.EnableKey? || a.DeleteKey?)
                  && (a.index.None? || a.index.value >= n))
            && (reply == Refused <==>
                  || n <= 1 || a.Unsupported?
                  || (a.DisableAllKeys? && !SomeSays(c, 1))
                  || (a.DeleteDisabledKeys? && !SomeSays(c, 3)))
  {
    NoneHasExact(c, 1);
    NoneHasExact(c, 3);
  }

  /** Disabling a key stores status 2, the clock and the reason at its index. */
  lemma DisableExact(c: Stored, i: nat, now: nat -> int)
    requires i < |Keys(c)| && |Keys(c)| > 1
    ensures Acted(c, DisableKey(Some(i)), now)
         == Stored(c.text, KeyState(c.st.status[i := 2], c.st.time[i := now(i)], c.st.reason[i := "manual disabled"]))
  {
    KeysNotBlank(c);
    DisablingIsStored(c.st, now, i);
  }

  /** Disabling all keys does that to the enabled ones, each with its own clock. */
  lemma DisableAllExact(c: Stored, now: nat -> int, i: nat)
    requires |Keys(c)| > 1 && SomeSays(c, 1)
    ensures var end, hit := Acted(c, DisableAllKeys, now), i < |Keys(c)| && Says(c, i, 1);
            && end.text == c.text
            && Get(end.st.status, i) == (if hit then Some(2) else Get(c.st.status, i))
            && Get(end.st.time, i) == (if hit then Some(now(i)) else Get(c.st.time, i))
            && Get(end.st.reason, i) == (if hit then Some("manual disabled") else Get(c.st.reason, i))
  {
    var n := |Keys(c)|;
    KeysNotBlank(c);
    NoneHasExact(c, 1);
    DisablingIsStored(c.st, now, n);
    DisabledToAt(c.st, now, n, i);
  }

  lemma DisabledToAt(st: KeyState, now: nat -> int, n: nat, i: nat)
    ensures var next, hit := DisabledTo(st, now, n), i < n && StatusAt(st, i) == 1;
            && Get(next.status, i) == (if hit then Some(2) else Get(st.status, i))
            && Get(next.time, i) == (if hit then Some(now(i)) else Get(st.time, i))
            && Get(next.reason, i) == (if hit then Some("manual disabled") else Get(st.reason, i))
  {
    var on := EnabledTo(st, n);
    WrittenAt(st.status, on, Manual, i);
    WrittenAt(st.time, on, now, i);
    WrittenAt(st.reason, on, ManualReason, i);
  }

  // ----------------------------------------------------------------- deletions

  /** What deletion leaves at index `j` when the key there came from `i`: the entry
      that moved with the key, and what was stored there where none did. */
  predicate MovedOver(end: Stored, c: Stored, j: nat, i: nat) {
    && Get(end.st.status, j) == (if Says(c, i, 1) then Get(c.st.status, j) else Get(c.st.status, i))
    && Get(end.st.time, j) == (if i in c.st.time then Get(c.st.time, i) else Get(c.st.time, j))
    && Get(end.st.reason, j) == (if i in c.st.reason then Get(c.st.reason, i) else Get(c.st.reason, j))
  }

  lemma OverlaidAt(st: KeyState, next: KeyState, j: nat, i: nat)
    requires Moves(st, next, j, i)
    ensures MovedOver(Stored("", Overlaid(st, next)), Stored("", st), j, i)
  {
  }

  lemma SavedAt(c: Stored, keep: seq<bool>, j: nat)
    requires |keep| == |Keys(c)| && j < |Origins(keep)|
    ensures MovedOver(Saved(c, KeptCopy(c, keep)), c, j, Origins(keep)[j])
  {
    ReindexedMoves(c.st, keep);
    OverlaidAt(c.st, Reindexed(c.st, keep).0, j, Origins(keep)[j]);
  }

  predicate SameAt(end: Stored, c: Stored, j: nat) {
    && Get(end.st.status, j) == Get(c.st.status, j) && Get(end.st.time, j) == Get(c.st.time, j)
    && Get(end.st.reason, j) == Get(c.st.reason, j)
  }

  lemma SavedAbove(c: Stored, keep: seq<bool>, j: nat)
    requires |keep| == |Keys(c)| && j >= |Origins(keep)|
    ensures SameAt(Saved(c, KeptCopy(c, keep)), c, j)
  {
    ReindexedMoves(c.st, keep);
  }

  /** Deleting a key takes it out of the list; the later ones move down with what
      is stored of them, over what was stored there before. */
  lemma DeleteKeyExact(c: Stored, i: nat, now: nat -> int, j: nat)
    requires i < |Keys(c)| && |Keys(c)| > 1
    ensures var end := Acted(c, DeleteKey(Some(i)), now);
            && Keys(end) == Keys(c)[..i] + Keys(c)[i + 1..]
            && (if j < |Keys(c)| - 1 then MovedOver(end, c, j, if j < i then j else j + 1) else SameAt(end, c, j))
  {
    var keep := KeepAllBut(|Keys(c)|, i);
    DeletedKeys(c, i, now);
    DeleteKeySaves(c, i, now);
    OriginsAllBut(|Keys(c)|, i);
    if j < |Keys(c)| - 1 { SavedAt(c, keep, j); } else { SavedAbove(c, keep, j); }
  }

  lemma DeletedKeys(c: Stored, i: nat, now: nat -> int)
    requires i < |Keys(c)| && |Keys(c)| > 1
    ensures Keys(Acted(c, DeleteKey(Some(i)), now)) == Keys(c)[..i] + Keys(c)[i + 1..]
  {
    DeleteKeyStored(c, i, now);
    AllButOne(Keys(c), i);
  }

  lemma AllButOne(keys: seq<string>, i: nat)
    requires i < |keys|
    ensures Select(keys, KeepAllBut(|keys|, i)) == keys[..i] + keys[i + 1..]
  {
    var keep, rest := KeepAllBut(|keys|, i), keys[..i] + keys[i + 1..];
    OriginsAllBut(|keys|, i);
    SelectOrigins(keys, keep);
    var got := Select(keys, keep);
    assert |got| == |rest|;
    forall j | 0 <= j < |rest| ensures got[j] == rest[j] {
      assert got[j] == keys[Origins(keep)[j]];
    }
  }

  /** `from` lists, in order, the indexes that `keep` keeps. */
  ghost predicate Lists(from: seq<nat>, keep: seq<bool>) {
    && (forall j :: 0 <= j < |from| ==> from[j] < |keep|)
    && (forall j, k :: 0 <= j < k < |from| ==> from[j] < from[k])
    && (forall i: nat :: i in from <==> i < |keep| && keep[i])
  }

  lemma ListsPush(from: seq<nat>, keep: seq<bool>, k: bool)
    requires Lists(from, keep)
    ensures Lists(from + if k then [|keep|] else [], keep + [k])
  {
    var next, more := from + (if k then [|keep|] else []), keep + [k];
    assert forall i: nat :: i in next <==> i in from || (k && i == |keep|);
    assert forall i :: 0 <= i < |keep| ==> more[i] == keep[i];
  }

  lemma {:induction false} OriginsList(keep: seq<bool>)
    ensures Lists(Origins(keep), keep)
  {
    if keep != [] {
      var front, k := keep[..|keep| - 1], keep[|keep| - 1];
      OriginsList(front);
      ListsPush(Origins(front), front, k);
      assert keep == front + [k];
    }
  }

  /** The keys that are left keep their order and are those not auto-disabled. */
  ghost predicate LeavesNotAuto(c: Stored, from: seq<nat>) {
    && (forall j :: 0 <= j < |from| ==> from[j] < |Keys(c)|)
    && (forall j, k :: 0 <= j < k < |from| ==> from[j] < from[k])
    && (forall i: nat :: i in from <==> i < |Keys(c)| && !Says(c, i, 3))
  }

  lemma NotAutoKept(c: Stored)
    ensures LeavesNotAuto(c, Origins(KeepUnlessAuto(View(c))))
  {
    var keep := KeepUnlessAuto(View(c));
    OriginsList(keep);
    forall i: nat | i < |Keys(c)| ensures keep[i] <==> !Says(c, i, 3) { ShownExact(c, i); }
  }

  /** The stored channel with the keys of `c` at `from` and their entries. */
  ghost predicate MovedFrom(end: Stored, c: Stored, from: seq<nat>)
    requires forall j :: 0 <= j < |from| ==> from[j] < |Keys(c)|
  {
    && |Keys(end)| == |from|
    && (forall j :: 0 <= j < |from| ==> Keys(end)[j] == Keys(c)[from[j]])
    && (forall j: nat :: j < |from| ==> MovedOver(end, c, j, from[j]))
  }

  lemma KeptMoves(c: Stored, keep: seq<bool>)
    requires |keep| == |Keys(c)| && Origins(keep) != []
    ensures MovedFrom(Saved(c, KeptCopy(c, keep)), c, Origins(keep))
  {
    KeptKeys(c, keep);
    SelectOrigins(Keys(c), keep);
    forall j: nat | j < |Origins(keep)| ensures MovedOver(Saved(c, KeptCopy(c, keep)), c, j, Origins(keep)[j]) {
      SavedAt(c, keep, j);
    }
  }

  /** Deleting the auto-disabled keys leaves exactly the others, if there are any,
      and moves what is stored of them in the same way. */
  lemma DeleteAutoExact(c: Stored, now: nat -> int) returns (from: seq<nat>)
    requires |Keys(c)| > 1 && SomeSays(c, 3) && exists i: nat :: i < |Keys(c)| && !Says(c, i, 3)
    ensures LeavesNotAuto(c, from) && MovedFrom(Acted(c, DeleteDisabledKeys, now), c, from)
  {
    from := Origins(KeepUnlessAuto(View(c)));
    NotAutoKept(c);
    NoneHasExact(c, 3);
    var i: nat :| i < |Keys(c)| && !Says(c, i, 3);
    assert i in from;
    KeptMoves(c, KeepUnlessAuto(View(c)));
    AutoSaves(c, now);
  }

  lemma AutoSaves(c: Stored, now: nat -> int)
    requires |Keys(c)| > 1 && !NoneHas(View(c), AUTO_DISABLED)
    ensures Acted(c, DeleteDisabledKeys, now) == Saved(c, KeptCopy(c, KeepUnlessAuto(View(c))))
  {
  }

  // ------------------------------------------------------------------- reports

  /** The line holds a key. */
  predicate KeyAt(lines: seq<string>, i: nat) {
    i < |lines| && Trim(lines[i]) != ""
  }

  lemma {:induction false} KeyLinesList(lines: seq<string>)
    ensures forall j, k :: 0 <= j < k < |KeyLines(lines)| ==> KeyLines(lines)[j] < KeyLines(lines)[k]
    ensures forall i :: i in KeyLines(lines) <==> KeyAt(lines, i)
  {
    if lines != [] {
      var front := lines[..|lines| - 1];
      KeyLinesList(front);
      assert forall j :: 0 <= j < |KeyLines(front)| ==> KeyLines(front)[j] in KeyLines(front);
    }
  }

  lemma TwoKeyLines(lines: seq<string>, i: nat)
    requires KeyAt(lines, i)
    ensures |KeyLines(lines)| > 1 <==> exists k: nat :: k != i && KeyAt(lines, k)
  {
    var at := KeyLines(lines);
    KeyLinesList(lines);
    var p :| 0 <= p < |at| && at[p] == i;
    if |at| > 1 {
      var q := if p == 0 then 1 else 0;
      assert at[q] in at && at[q] != i;
    }
    if k: nat :| k != i && KeyAt(lines, k) {
      var q :| 0 <= q < |at| && at[q] == k;
    }
  }

  /** A report stores status 3, its time and its reason at the line number, exactly
      when that line holds a key and another line does too. */
  lemma ReportExact(text: string, st: KeyState, index: nat, reason: string, time: int)
    ensures AutoDisabled(text, st, index, reason, time)
         == if KeyAt(Lines(text), index) && exists k: nat :: k != index && KeyAt(Lines(text), k)
            then KeyState(st.status[index := 3], st.time[index := time], st.reason[index := reason])
            else st
  {
    KeyLinesList(Lines(text));
    if KeyAt(Lines(text), index) { TwoKeyLines(Lines(text), index); }
  }
}
