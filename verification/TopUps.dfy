/** Top-up completion as a protocol over two stores: the billing store turns a
    pending top-up into a success and names the quota to grant, then the handler
    credits that quota in the management store. A failed credit is not undone. */
module TopUps {
  import opened Prelude
  import opened Text
  import opened Billing

  datatype Grant = Grant(trade: string, user: nat, quota: int)

  /** `pending` grants are not credited yet, `lost` ones never will be. */
  datatype State = State(topups: seq<TopUp>, pending: multiset<Grant>, credited: multiset<Grant>, lost: multiset<Grant>)

  datatype Event =
    | Create(topup: TopUp, now: int)
    | Complete(trade: string, worth: TopUp -> Result<int>, now: int)
    | CreditApplied(grant: Grant)
    | CreditFailed(grant: Grant)

  const Start := State([], multiset{}, multiset{}, multiset{})

  function All(s: State): multiset<Grant> {
    s.pending + s.credited + s.lost
  }

  predicate Enabled(s: State, e: Event) {
    match e
    case Create(topup, now) => true
    case Complete(trade, worth, now) => true
    case CreditApplied(grant) => grant in s.pending
    case CreditFailed(grant) => grant in s.pending
  }

  function CreateStep(s: State, topup: TopUp, now: int): State {
    match CreateTopUpResult(s.topups, topup, now)
    case Ok(t) => s.(topups := s.topups + [t])
    case Err(_) => s
  }

  function CompleteStep(s: State, trade: string, worth: TopUp -> Result<int>, now: int): State {
    match CompleteResult(s.topups, trade, worth, now)
    case Ok(done) =>
      s.(topups := AfterComplete(s.topups, trade, worth, now),
         pending := if done.quota > 0 then s.pending + multiset{Grant(done.topup.trade, done.topup.user, done.quota)}
                    else s.pending)
    case Err(_) => s
  }

  function Step(s: State, e: Event): State
    requires Enabled(s, e)
  {
    match e
    case Create(topup, now) => CreateStep(s, topup, now)
    case Complete(trade, worth, now) => CompleteStep(s, trade, worth, now)
    case CreditApplied(grant) =>
      s.(pending := s.pending - multiset{grant}, credited := s.credited + multiset{grant})
    case CreditFailed(grant) =>
      s.(pending := s.pending - multiset{grant}, lost := s.lost + multiset{grant})
  }

  function Run(events: seq<Event>): Option<State> {
    if events == [] then Some(Start)
    else
      var before := Run(events[..|events| - 1]);
      var e := events[|events| - 1];
      if before.Some? && Enabled(before.value, e) then Some(Step(before.value, e)) else None
  }

  predicate DistinctTrades(ts: seq<TopUp>) {
    forall i, j :: 0 <= i < j < |ts| ==> ts[i].trade != ts[j].trade
  }

  /** A grant was made for a top-up that is now a success, to its own user. */
  predicate Backed(ts: seq<TopUp>, g: Grant) {
    var i := TradeIndex(ts, g.trade);
    i < |ts| && ts[i].status == SUCCESS && ts[i].user == g.user
  }

  ghost predicate Once(all: multiset<Grant>) {
    forall g, h :: g in all && h in all && g.trade == h.trade ==> g == h && all[g] == 1
  }

  ghost predicate Inv(s: State) {
    && DistinctTrades(s.topups)
    && (forall g :: g in All(s) ==> Backed(s.topups, g))
    && Once(All(s))
  }

  lemma CreateKeeps(s: State, topup: TopUp, now: int)
    requires Inv(s)
    ensures Inv(CreateStep(s, topup, now))
  {
    var r := CreateTopUpResult(s.topups, topup, now);
    if r.Ok? {
      var after := s.topups + [r.value];
      assert forall i :: 0 <= i < |s.topups| ==> s.topups[i].trade != NormalTopUp(topup).trade;
      forall g | g in All(s) ensures Backed(after, g) {
        assert Backed(s.topups, g);
        TradeStays(s.topups, r.value, g.trade);
      }
    }
  }

  lemma TradeStays(ts: seq<TopUp>, t: TopUp, trade: string)
    requires TradeIndex(ts, trade) < |ts|
    ensures TradeIndex(ts + [t], trade) == TradeIndex(ts, trade)
  {
    var i, k := TradeIndex(ts, trade), TradeIndex(ts + [t], trade);
    assert (ts + [t])[i].trade == trade;
  }

  lemma CompleteKeeps(s: State, trade: string, worth: TopUp -> Result<int>, now: int)
    requires Inv(s)
    ensures Inv(CompleteStep(s, trade, worth, now))
  {
    var i := TradeIndex(s.topups, Trim(trade));
    var r := CompleteResult(s.topups, trade, worth, now);
    if r.Ok? && s.topups[i].status == PENDING {
      var after := s.topups[i := r.value.topup];
      forall g | g in All(s) ensures g.trade != Trim(trade) && Backed(after, g) {
        assert Backed(s.topups, g);
        StillBacked(s.topups, i, r.value.topup, g);
      }
      OtherTrade(s.topups, i, r.value.topup, Trim(trade));
      CompleteAdds(s, after, r.value);
    }
  }

  lemma StillBacked(ts: seq<TopUp>, i: nat, t: TopUp, g: Grant)
    requires i < |ts| && t.trade == ts[i].trade && i == TradeIndex(ts, t.trade)
    requires ts[i].status == PENDING && Backed(ts, g)
    ensures g.trade != t.trade && Backed(ts[i := t], g)
  {
    OtherTrade(ts, i, t, g.trade);
  }

  /** Rewriting one top-up under its own trade number moves no trade number. */
  lemma OtherTrade(ts: seq<TopUp>, i: nat, t: TopUp, trade: string)
    requires i < |ts| && t.trade == ts[i].trade
    ensures TradeIndex(ts[i := t], trade) == TradeIndex(ts, trade)
  {
    var a, b := TradeIndex(ts, trade), TradeIndex(ts[i := t], trade);
    assert a < |ts| ==> ts[i := t][a].trade == ts[a].trade;
    assert b < |ts| ==> ts[i := t][b].trade == ts[b].trade;
  }

  lemma CompleteAdds(s: State, after: seq<TopUp>, done: Completed)
    requires Inv(s) && DistinctTrades(after)
    requires forall g :: g in All(s) ==> g.trade != done.topup.trade
    requires forall g :: g in All(s) ==> Backed(after, g)
    requires Backed(after, Grant(done.topup.trade, done.topup.user, done.quota))
    ensures Inv(s.(topups := after))
    ensures Inv(s.(topups := after,
                   pending := s.pending + multiset{Grant(done.topup.trade, done.topup.user, done.quota)}))
  {
    var g := Grant(done.topup.trade, done.topup.user, done.quota);
    var t := s.(topups := after, pending := s.pending + multiset{g});
    assert All(t) == All(s) + multiset{g};
  }

  lemma CreditKeeps(s: State, g: Grant)
    requires Inv(s) && g in s.pending
    ensures Inv(Step(s, CreditApplied(g))) && Inv(Step(s, CreditFailed(g)))
  {
    assert All(Step(s, CreditApplied(g))) == All(s);
    assert All(Step(s, CreditFailed(g))) == All(s);
  }

  lemma StepKeeps(s: State, e: Event)
    requires Inv(s) && Enabled(s, e)
    ensures Inv(Step(s, e))
  {
    match e
    case Create(topup, now) => CreateKeeps(s, topup, now);
    case Complete(trade, worth, now) => CompleteKeeps(s, trade, worth, now);
    case CreditApplied(g) => CreditKeeps(s, g);
    case CreditFailed(g) => CreditKeeps(s, g);
  }

  lemma {:induction false} RunKeeps(events: seq<Event>)
    requires Run(events).Some?
    ensures Inv(Run(events).value)
  {
    if events != [] {
      var before := events[..|events| - 1];
      RunKeeps(before);
      StepKeeps(Run(before).value, events[|events| - 1]);
    }
  }

  /** However often a trade number is completed, and whatever the handlers'
      interleaving, it grants quota at most once, and to the top-up's own user. */
  lemma GrantedAtMostOnce(events: seq<Event>, g: Grant, h: Grant)
    requires Run(events).Some? && g.trade == h.trade
    requires g in All(Run(events).value) && h in All(Run(events).value)
    ensures g == h && All(Run(events).value)[g] == 1 && Backed(Run(events).value.topups, g)
  {
    RunKeeps(events);
  }

  /** Completing a top-up a second time, at any later price, changes nothing. */
  lemma CompleteIsIdempotent(ts: seq<TopUp>, trade: string, worth: TopUp -> Result<int>, now: int,
                             worth': TopUp -> Result<int>, now': int)
    requires CompleteResult(ts, trade, worth, now).Ok?
    ensures var after := AfterComplete(ts, trade, worth, now);
            && AfterComplete(after, trade, worth', now') == after
            && CompleteResult(after, trade, worth', now')
               == Ok(Completed(CompleteResult(ts, trade, worth, now).value.topup, 0))
  {
    var i := TradeIndex(ts, Trim(trade));
    if ts[i].status == PENDING {
      OtherTrade(ts, i, CompleteResult(ts, trade, worth, now).value.topup, Trim(trade));
    }
  }

  // ------------------------------------------------------- what a completion pays

  /** The top-up at `i` is pending under the trimmed trade number. */
  predicate Meets(s: State, trade: string, i: nat) {
    i < |s.topups| && s.topups[i].trade == Trim(trade) != "" && s.topups[i].status == "pending"
  }

  /** Completing a pending top-up that the price rules value at q makes it a success
      now and adds exactly the grant of q to its user under its trade number, if q is
      positive. Nothing else changes. */
  lemma CompletePays(s: State, trade: string, worth: TopUp -> Result<int>, now: int, i: nat, q: int)
    requires DistinctTrades(s.topups) && Meets(s, trade, i) && worth(s.topups[i]) == Ok(q)
    ensures var t, topup := Step(s, Complete(trade, worth, now)), s.topups[i];
            && t.topups == s.topups[i := topup.(status := "success", completeTime := now)]
            && t.pending == s.pending + (if q > 0 then multiset{Grant(topup.trade, topup.user, q)} else multiset{})
            && t.credited == s.credited && t.lost == s.lost
  {
    assert TradeIndex(s.topups, Trim(trade)) == i;
  }

  /** In every other case it pays nothing and changes nothing. */
  lemma CompletePaysNothing(s: State, trade: string, worth: TopUp -> Result<int>, now: int)
    requires forall i: nat :: Meets(s, trade, i) ==> worth(s.topups[i]).Err?
    ensures Step(s, Complete(trade, worth, now)) == s
  {
    var i := TradeIndex(s.topups, Trim(trade));
    if Trim(trade) != "" && i < |s.topups| && s.topups[i].status == PENDING { assert Meets(s, trade, i); }
  }

  /** The event completes the pending top-up at `i`, of this grant's user and trade
      number, and the price rules value it at this positive quota. */
  predicate PaysAt(s: State, e: Event, i: nat, g: Grant) {
    && e.Complete? && Meets(s, e.trade, i)
    && s.topups[i].trade == g.trade && s.topups[i].user == g.user
    && e.worth(s.topups[i]) == Ok(g.quota) && g.quota > 0
  }

  ghost predicate Pays(s: State, e: Event, g: Grant) {
    exists i: nat :: PaysAt(s, e, i, g)
  }

  ghost predicate PaidAt(events: seq<Event>, n: nat, g: Grant)
    requires n < |events|
  {
    Run(events[..n]).Some? && Pays(Run(events[..n]).value, events[n], g)
  }

  ghost predicate Paid(events: seq<Event>, g: Grant) {
    exists n: nat :: n < |events| && PaidAt(events, n, g)
  }

  lemma PaidNext(events: seq<Event>, e: Event, g: Grant)
    requires Run(events).Some?
    ensures Paid(events + [e], g) <==> Paid(events, g) || Pays(Run(events).value, e, g)
  {
    var all := events + [e];
    forall n: nat | n < |events| ensures PaidAt(all, n, g) <==> PaidAt(events, n, g) {
      assert all[..n] == events[..n] && all[n] == events[n];
    }
    assert all[..|events|] == events && all[|events|] == e;
    assert PaidAt(all, |events|, g) <==> Pays(Run(events).value, e, g);
    if n: nat :| n < |events| && PaidAt(events, n, g) { assert PaidAt(all, n, g); }
  }

  lemma CompleteGrants(s: State, trade: string, worth: TopUp -> Result<int>, now: int, g: Grant)
    requires DistinctTrades(s.topups)
    ensures var e := Complete(trade, worth, now); g in All(Step(s, e)) <==> g in All(s) || Pays(s, e, g)
  {
    var e := Complete(trade, worth, now);
    if i: nat :| Meets(s, trade, i) && worth(s.topups[i]).Ok? {
      CompletePays(s, trade, worth, now, i, worth(s.topups[i]).value);
      assert forall k: nat :: Meets(s, trade, k) ==> k == i;
      assert Pays(s, e, g) <==> PaysAt(s, e, i, g);
    } else {
      CompletePaysNothing(s, trade, worth, now);
    }
  }

  /** An event adds a grant exactly if it pays it. */
  lemma StepPays(s: State, e: Event, g: Grant)
    requires DistinctTrades(s.topups) && Enabled(s, e)
    ensures g in All(Step(s, e)) <==> g in All(s) || Pays(s, e, g)
  {
    if e.Complete? {
      CompleteGrants(s, e.trade, e.worth, e.now, g);
    } else if e.CreditApplied? || e.CreditFailed? {
      assert All(Step(s, e)) == All(s);
    }
  }

  /** In every run the grants, pending, credited and lost together, are exactly what
      its completions paid: each grant has the quota that the price rules gave its
      top-up when it was completed, and each completion that was worth something has
      its grant. */
  lemma {:induction false} GrantsExact(events: seq<Event>, g: Grant)
    requires Run(events).Some?
    ensures g in All(Run(events).value) <==> Paid(events, g)
  {
    if events != [] {
      var front, e := events[..|events| - 1], events[|events| - 1];
      assert events == front + [e];
      GrantsExact(front, g);
      PaidNext(front, e, g);
      RunKeeps(front);
      StepPays(Run(front).value, e, g);
    }
  }

  // ----------------------------------------------------------- stored top-ups

  /** Stored trade numbers are trimmed and not blank, and every top-up has a user. */
  predicate Sound(t: TopUp) {
    Trim(t.trade) == t.trade != "" && t.user != 0
  }

  ghost predicate AllSound(ts: seq<TopUp>) {
    && (forall i :: 0 <= i < |ts| ==> Sound(ts[i]))
    && (forall i, j :: 0 <= i < j < |ts| ==> ts[i].id != ts[j].id)
  }

  /** A create call stores exactly the top-ups that have a trade number and a user
      and repeat neither trade number nor id, under the trimmed trade number, pending
      unless it says otherwise, with the next id and the time where it has none. */
  lemma CreateExact(s: State, t: TopUp, now: int)
    ensures var after := Step(s, Create(t, now)).topups;
            var taken := exists k :: 0 <= k < |s.topups| &&
                           (s.topups[k].trade == Trim(t.trade) || (t.id != 0 && s.topups[k].id == t.id));
            if Trim(t.trade) == "" || t.user == 0 || taken then after == s.topups
            else
              && |after| == |s.topups| + 1 && after[..|s.topups|] == s.topups
              && var made := after[|s.topups|];
                 && made.trade == Trim(t.trade) && made.user == t.user && made.completeTime == t.completeTime
                 && made.status == (if t.status == "" then "pending" else t.status)
                 && made.createTime == (if t.createTime == 0 then now else t.createTime)
                 && (t.id != 0 ==> made.id == t.id)
                 && (t.id == 0 && MaxId(TopUpIds(s.topups)) < U64_MAX ==>
                       forall k :: 0 <= k < |s.topups| ==> s.topups[k].id < made.id)
  {
    MaxIdBounds(TopUpIds(s.topups));
    assert forall k :: 0 <= k < |s.topups| ==> TopUpIds(s.topups)[k] == s.topups[k].id;
  }

  /** In every run, while ids are left, stored top-ups are sound and their ids
      differ. */
  lemma {:induction false} TopUpsStaySound(events: seq<Event>)
    requires Run(events).Some?
    requires forall n :: 0 <= n < |events| && Run(events[..n]).Some? ==>
               MaxId(TopUpIds(Run(events[..n]).value.topups)) < U64_MAX
    ensures AllSound(Run(events).value.topups)
  {
    if events != [] {
      var n := |events| - 1;
      var s, e := Run(events[..n]).value, events[n];
      assert forall k | 0 <= k < n :: events[..n][..k] == events[..k];
      TopUpsStaySound(events[..n]);
      StaysSound(s, e);
    }
  }

  lemma AppendSound(ts: seq<TopUp>, made: TopUp)
    requires AllSound(ts) && Sound(made) && forall k :: 0 <= k < |ts| ==> ts[k].id != made.id
    ensures AllSound(ts + [made])
  {
  }

  lemma CreateSound(s: State, t: TopUp, now: int)
    requires AllSound(s.topups) && MaxId(TopUpIds(s.topups)) < U64_MAX
    ensures AllSound(CreateStep(s, t, now).topups)
  {
    CreateExact(s, t, now);
    TrimTwice(t.trade);
    var r := CreateTopUpResult(s.topups, t, now);
    if r.Ok? { AppendSound(s.topups, r.value); }
  }

  lemma StaysSound(s: State, e: Event)
    requires AllSound(s.topups) && Enabled(s, e) && MaxId(TopUpIds(s.topups)) < U64_MAX
    ensures AllSound(Step(s, e).topups)
  {
    if e.Create? { CreateSound(s, e.topup, e.now); }
  }

  /** The credit call moves the one grant it was made for: to the users it reached
      when it succeeds, to those lost when it fails. */
  lemma CreditMoves(events: seq<Event>, g: Grant)
    requires Run(events).Some? && g in Run(events).value.pending
    ensures var s, paid, gone := Run(events).value, Run(events + [CreditApplied(g)]), Run(events + [CreditFailed(g)]);
            && paid.Some? && gone.Some?
            && paid.value.credited == s.credited + multiset{g} && paid.value.lost == s.lost
            && gone.value.lost == s.lost + multiset{g} && gone.value.credited == s.credited
            && paid.value.pending == gone.value.pending == s.pending - multiset{g}
            && paid.value.topups == gone.value.topups == s.topups
  {
    assert (events + [CreditApplied(g)])[..|events|] == events;
    assert (events + [CreditFailed(g)])[..|events|] == events;
  }
}
