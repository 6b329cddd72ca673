/** The in-memory usage sink: the recorded usage events and the set of their
    request ids, behind one lock. */
module UsageSink {
  import opened Prelude
  import opened Calendar

  datatype UsageEvent = UsageEvent(id: string, createdMs: int, quota: Option<int>)

  /** The quota that settlement computed for one request. */
  datatype EventQuota = EventQuota(id: string, quota: int)

  // -------------------------------------------------------------- specification

  function Ids(events: seq<UsageEvent>): set<string> {
    set e | e in events :: e.id
  }

  predicate DistinctIds(events: seq<UsageEvent>) {
    forall i, j :: 0 <= i < j < |events| ==> events[i].id != events[j].id
  }

  /** The events of a batch whose id is new to the sink and to the batch before
      them, in batch order. */
  function Accepted(known: set<string>, batch: seq<UsageEvent>): seq<UsageEvent>
    decreases batch
  {
    if batch == [] then []
    else if batch[0].id in known then Accepted(known, batch[1..])
    else [batch[0]] + Accepted(known + {batch[0].id}, batch[1..])
  }

  function Without(events: seq<UsageEvent>, ids: set<string>): seq<UsageEvent> {
    if events == [] then []
    else Without(events[..|events| - 1], ids)
         + if events[|events| - 1].id in ids then [] else [events[|events| - 1]]
  }

  function Since(events: seq<UsageEvent>, target: int): seq<UsageEvent> {
    if events == [] then []
    else Since(events[..|events| - 1], target)
         + if Second(events[|events| - 1]) >= target then [events[|events| - 1]] else []
  }

  /** Rust's integer division rounds towards zero. */
  function Second(e: UsageEvent): int {
    TruncDiv(e.createdMs, 1000)
  }

  /** The last quota listed for an id, as collecting the list into a map gives it. */
  function QuotaFor(quotas: seq<EventQuota>, id: string): Option<int> {
    if quotas == [] then None
    else if quotas[|quotas| - 1].id == id then Some(quotas[|quotas| - 1].quota)
    else QuotaFor(quotas[..|quotas| - 1], id)
  }

  function Priced(e: UsageEvent, quotas: seq<EventQuota>): UsageEvent {
    match QuotaFor(quotas, e.id)
    case Some(q) => e.(quota := Some(q))
    case None => e
  }

  // --------------------------------------------------------- facts about batches

  lemma IdsPush(events: seq<UsageEvent>, e: UsageEvent)
    ensures Ids(events + [e]) == Ids(events) + {e.id}
  {
    assert forall x :: x in events + [e] <==> x in events || x == e;
    assert e in events + [e];
  }

  lemma IdsAppend(a: seq<UsageEvent>, b: seq<UsageEvent>)
    ensures Ids(a + b) == Ids(a) + Ids(b)
  {
    assert forall x :: x in a + b <==> x in a || x in b;
  }

  lemma IdsFront(batch: seq<UsageEvent>)
    requires batch != []
    ensures Ids(batch) == {batch[0].id} + Ids(batch[1..])
  {
    assert batch == [batch[0]] + batch[1..];
    IdsAppend([batch[0]], batch[1..]);
  }

  /** Acceptance neither loses an id nor repeats one: the accepted events carry
      exactly the batch's ids that were unknown, each once. */
  lemma {:induction false} AcceptedExact(known: set<string>, batch: seq<UsageEvent>)
    ensures Ids(Accepted(known, batch)) == Ids(batch) - known
    ensures DistinctIds(Accepted(known, batch))
    ensures forall e :: e in Accepted(known, batch) ==> e in batch
    decreases batch
  {
    if batch != [] {
      IdsFront(batch);
      var e, rest := batch[0], batch[1..];
      if e.id in known {
        AcceptedExact(known, rest);
      } else {
        var accepted := Accepted(known + {e.id}, rest);
        AcceptedExact(known + {e.id}, rest);
        IdsAppend([e], accepted);
        AcceptedHead(e, accepted);
      }
    }
  }

  lemma AcceptedHead(e: UsageEvent, rest: seq<UsageEvent>)
    requires DistinctIds(rest) && e.id !in Ids(rest)
    ensures DistinctIds([e] + rest) && Ids([e]) == {e.id}
  {
    assert forall i :: 0 <= i < |rest| ==> rest[i] in rest;
    assert [e] == [] + [e];
    IdsPush([], e);
  }

  lemma {:induction false} WithoutKeeps(events: seq<UsageEvent>, ids: set<string>)
    ensures forall e :: e in Without(events, ids) <==> e in events && e.id !in ids
    ensures DistinctIds(events) ==> DistinctIds(Without(events, ids))
  {
    if events != [] {
      var front, e := events[..|events| - 1], events[|events| - 1];
      WithoutKeeps(front, ids);
      assert events == front + [e];
      assert forall i :: 0 <= i < |Without(front, ids)| ==> Without(front, ids)[i] in front;
    }
  }

  lemma WithoutExact(events: seq<UsageEvent>, ids: set<string>)
    ensures Ids(Without(events, ids)) == Ids(events) - ids
    ensures forall e :: e in Without(events, ids) <==> e in events && e.id !in ids
    ensures DistinctIds(events) ==> DistinctIds(Without(events, ids))
  {
    WithoutKeeps(events, ids);
  }

  lemma {:induction false} SinceExact(events: seq<UsageEvent>, target: int)
    ensures forall e :: e in Since(events, target) <==> e in events && Second(e) >= target
    ensures DistinctIds(events) ==> DistinctIds(Since(events, target))
  {
    if events != [] {
      var front, e := events[..|events| - 1], events[|events| - 1];
      SinceExact(front, target);
      assert events == front + [e];
      assert forall i :: 0 <= i < |Since(front, target)| ==> Since(front, target)[i] in front;
    }
  }

  // Batches end to end: where a batch is cut does not matter.

  lemma AcceptedFirst(known: set<string>, a: seq<UsageEvent>, b: seq<UsageEvent>)
    requires a != []
    ensures Accepted(known, a + b)
         == if a[0].id in known then Accepted(known, a[1..] + b)
            else [a[0]] + Accepted(known + {a[0].id}, a[1..] + b)
  {
    assert (a + b)[1..] == a[1..] + b && (a + b)[0] == a[0];
  }

  /** Recording two batches one after the other accepts what recording them as one
      does. */
  lemma {:induction false} AcceptedAppend(known: set<string>, a: seq<UsageEvent>, b: seq<UsageEvent>)
    ensures Accepted(known, a + b) == Accepted(known, a) + Accepted(known + Ids(a), b)
    decreases a
  {
    if a == [] {
      assert a + b == b && known + Ids(a) == known;
    } else {
      IdsFront(a);
      AcceptedFirst(known, a, b);
      if a[0].id in known {
        AcceptedAppend(known, a[1..], b);
        assert known + Ids(a[1..]) == known + Ids(a);
      } else {
        AcceptedAppend(known + {a[0].id}, a[1..], b);
        assert known + {a[0].id} + Ids(a[1..]) == known + Ids(a);
      }
    }
  }

  lemma {:induction false} WithoutAppend(a: seq<UsageEvent>, b: seq<UsageEvent>, ids: set<string>)
    ensures Without(a + b, ids) == Without(a, ids) + Without(b, ids)
  {
    if b == [] {
      assert a + b == a;
    } else {
      var front := b[..|b| - 1];
      assert (a + b)[..|a + b| - 1] == a + front && (a + b)[|a + b| - 1] == b[|b| - 1];
      WithoutAppend(a, front, ids);
      var last := if b[|b| - 1].id in ids then [] else [b[|b| - 1]];
      assert Without(a, ids) + (Without(front, ids) + last) == (Without(a, ids) + Without(front, ids)) + last;
    }
  }

  lemma {:induction false} SinceAppend(a: seq<UsageEvent>, b: seq<UsageEvent>, target: int)
    ensures Since(a + b, target) == Since(a, target) + Since(b, target)
  {
    if b == [] {
      assert a + b == a;
    } else {
      var front := b[..|b| - 1];
      assert (a + b)[..|a + b| - 1] == a + front && (a + b)[|a + b| - 1] == b[|b| - 1];
      SinceAppend(a, front, target);
      var last := if Second(b[|b| - 1]) < target then [] else [b[|b| - 1]];
      assert Since(a, target) + (Since(front, target) + last) == (Since(a, target) + Since(front, target)) + last;
    }
  }

  /** Of one event: its id decides, and its second, which is its milliseconds divided
      by 1000 towards zero. */
  lemma KeptAlone(e: UsageEvent, ids: set<string>, target: int)
    ensures Accepted(ids, [e]) == if e.id in ids then [] else [e]
    ensures Without([e], ids) == if e.id in ids then [] else [e]
    ensures var second := if e.createdMs >= 0 then e.createdMs / 1000 else -(-e.createdMs / 1000);
            Since([e], target) == if second < target then [] else [e]
  {
    assert Without([], ids) == [] && Since([], target) == [];
    assert [e][..0] == [];
  }

  /** The last quota listed for the id decides, and an unlisted id keeps its own. */
  lemma {:induction false} LastQuotaWins(quotas: seq<EventQuota>, e: UsageEvent)
    ensures Priced(e, quotas).id == e.id && Priced(e, quotas).createdMs == e.createdMs
    ensures (forall i :: 0 <= i < |quotas| ==> quotas[i].id != e.id) ==> Priced(e, quotas).quota == e.quota
    ensures forall i :: 0 <= i < |quotas| && quotas[i].id == e.id
                        && (forall k :: i < k < |quotas| ==> quotas[k].id != e.id) ==>
              Priced(e, quotas).quota == Some(quotas[i].quota)
  {
    if quotas != [] && quotas[|quotas| - 1].id != e.id {
      var front := quotas[..|quotas| - 1];
      LastQuotaWins(front, e);
      assert forall i :: 0 <= i < |front| ==> front[i] == quotas[i];
    }
  }

  // -------------------------------------------------------------------- the sink

  class MemoryUsageEventSink {
    var events: seq<UsageEvent>
    var requestIds: set<string>

    ghost predicate Valid()
      reads this
    {
      requestIds == Ids(events) && DistinctIds(events)
    }

    constructor ()
      ensures Valid() && events == []
    {
      events, requestIds := [], {};
    }

    /** Records the events with new ids and returns them. */
    method RecordUnique(batch: seq<UsageEvent>) returns (accepted: seq<UsageEvent>)
      requires Valid()
      modifies this
      ensures Valid()
      ensures accepted == Accepted(old(requestIds), batch)
      ensures events == old(events) + accepted
    {
      accepted := [];
      ghost var known := requestIds;
      for n := 0 to |batch|
        invariant requestIds == known + Ids(accepted)
        invariant events == old(events) + accepted
        invariant accepted + Accepted(requestIds, batch[n..]) == Accepted(known, batch)
      {
        RecordNext(requestIds, accepted, batch, n);
        if batch[n].id !in requestIds {
          IdsPush(accepted, batch[n]);
          requestIds := requestIds + {batch[n].id};
          accepted := accepted + [batch[n]];
          events := events + [batch[n]];
        }
      }
      assert accepted + [] == accepted && batch[|batch|..] == [];
      AcceptedExact(known, batch);
      AppendDistinct(old(events), accepted);
    }

    method DiscardRequestIds(ids: seq<string>) returns (removed: int)
      requires Valid()
      modifies this
      ensures Valid()
      ensures events == Without(old(events), set x | x in ids)
      ensures removed == |old(events)| - |events|
    {
      if ids == [] {
        WithoutNone(events);
        assert (set x | x in ids) == {};
        return 0;
      }
      var gone := set x | x in ids;
      var before, kept := events, [];
      for n := 0 to |before|
        invariant kept == Without(before[..n], gone)
      {
        assert before[..n + 1][..n] == before[..n];
        if before[n].id !in gone { kept := kept + [before[n]]; }
      }
      assert before[..|before|] == before;
      WithoutExact(before, gone);
      events := kept;
      requestIds := set e | e in events :: e.id;
      removed := |before| - |events|;
    }

    method DeleteBeforeUnixSeconds(target: int) returns (removed: int)
      requires Valid()
      modifies this
      ensures Valid()
      ensures events == Since(old(events), target)
      ensures removed == |old(events)| - |events|
    {
      var before, kept := events, [];
      removed := 0;
      for n := 0 to |before|
        invariant kept == Since(before[..n], target) && removed == n - |kept|
      {
        assert before[..n + 1][..n] == before[..n];
        if Second(before[n]) >= target { kept := kept + [before[n]]; } else { removed := removed + 1; }
      }
      assert before[..|before|] == before;
      SinceExact(before, target);
      events := kept;
      requestIds := set e | e in events :: e.id;
    }

    /** Writes the settled quotas into the recorded events and nothing else. */
    method ApplyQuotas(quotas: seq<EventQuota>)
      requires Valid()
      modifies this`events
      ensures Valid() && |events| == |old(events)|
      ensures forall i :: 0 <= i < |events| ==> events[i] == Priced(old(events)[i], quotas)
    {
      for n := 0 to |events|
        invariant |events| == |old(events)|
        invariant forall i :: 0 <= i < n ==> events[i] == Priced(old(events)[i], quotas)
        invariant forall i :: n <= i < |events| ==> events[i] == old(events)[i]
      {
        events := events[n := Priced(events[n], quotas)];
      }
      SameIds(old(events), events);
    }
  }

  /** One turn of the recording loop. */
  lemma RecordNext(known: set<string>, done: seq<UsageEvent>, batch: seq<UsageEvent>, n: nat)
    requires n < |batch|
    ensures var e := batch[n];
            done + Accepted(known, batch[n..])
            == if e.id in known then done + Accepted(known, batch[n + 1..])
               else (done + [e]) + Accepted(known + {e.id}, batch[n + 1..])
  {
    assert batch[n..][1..] == batch[n + 1..];
  }

  lemma AppendDistinct(a: seq<UsageEvent>, b: seq<UsageEvent>)
    requires DistinctIds(a) && DistinctIds(b) && Ids(a) !! Ids(b)
    ensures DistinctIds(a + b) && Ids(a + b) == Ids(a) + Ids(b)
  {
    IdsAppend(a, b);
    forall i, j | 0 <= i < |a| && 0 <= j < |b| ensures a[i].id != b[j].id {
      assert a[i] in a && b[j] in b;
      assert a[i].id in Ids(a) && b[j].id in Ids(b);
    }
  }

  lemma {:induction false} WithoutNone(events: seq<UsageEvent>)
    ensures Without(events, {}) == events
  {
    if events != [] { WithoutNone(events[..|events| - 1]); }
  }

  lemma SameIds(a: seq<UsageEvent>, b: seq<UsageEvent>)
    requires |a| == |b| && forall i :: 0 <= i < |a| ==> a[i].id == b[i].id
    ensures Ids(a) == Ids(b)
  {
    forall x | x in Ids(a) ensures x in Ids(b) {
      var i :| 0 <= i < |a| && a[i].id == x;
      assert b[i] in b;
    }
    forall x | x in Ids(b) ensures x in Ids(a) {
      var i :| 0 <= i < |b| && b[i].id == x;
      assert a[i] in a;
    }
  }
}
