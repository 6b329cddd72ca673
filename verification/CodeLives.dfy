/** The life of one redemption code, in its fields: which code a redeem uses and
    when, what edits and deletions change, and what a rollback restores. */
module CodeLives {
  import opened Prelude
  import opened Text
  import opened Billing
  import opened Redeeming

  // ------------------------------------------------------------- removing codes

  /** `kept` are the elements of `rs` at the positions `from`, in order: exactly the
      ones that pass. */
  ghost predicate Picks(rs: seq<Redemption>, keep: Redemption -> bool, kept: seq<Redemption>, from: seq<nat>) {
    && |from| == |kept|
    && (forall i :: 0 <= i < |from| ==> from[i] < |rs| && kept[i] == rs[from[i]] && keep(rs[from[i]]))
    && (forall i, j :: 0 <= i < j < |from| ==> from[i] < from[j])
    && (forall k :: 0 <= k < |rs| && keep(rs[k]) ==> k in from)
  }

  lemma PicksNext(rs: seq<Redemption>, keep: Redemption -> bool, kept: seq<Redemption>, from: seq<nat>, r: Redemption)
    requires Picks(rs, keep, kept, from)
    ensures keep(r) ==> Picks(rs + [r], keep, kept + [r], from + [|rs|])
    ensures !keep(r) ==> Picks(rs + [r], keep, kept, from)
  {
    var all, last := rs + [r], from + [|rs|];
    assert forall k :: 0 <= k < |rs| ==> all[k] == rs[k];
    assert all[|rs|] == r && last[|from|] == |rs| && forall k :: k in from ==> k in last;
  }

  lemma {:induction false} RetainedPicks(rs: seq<Redemption>, keep: Redemption -> bool) returns (from: seq<nat>)
    ensures Picks(rs, keep, Retained(rs, keep), from)
  {
    from := [];
    if rs != [] {
      var front, r := rs[..|rs| - 1], rs[|rs| - 1];
      from := RetainedPicks(front, keep);
      PicksNext(front, keep, Retained(front, keep), from, r);
      assert rs == front + [r];
      if keep(r) { from := from + [|front|]; }
    }
  }

  lemma RetainedMember(rs: seq<Redemption>, keep: Redemption -> bool, r: Redemption)
    ensures r in Retained(rs, keep) <==> r in rs && keep(r)
  {
    var from := RetainedPicks(rs, keep);
    if r in rs && keep(r) {
      var k :| 0 <= k < |rs| && rs[k] == r;
      var i :| 0 <= i < |from| && from[i] == k;
    }
  }

  /** Deleting an id removes the codes with that id and no others. */
  lemma DeleteExact(rs: seq<Redemption>, id: nat, r: Redemption)
    ensures r in Retained(rs, OtherIds(id)) <==> r in rs && r.id != id
  {
    RetainedMember(rs, OtherIds(id), r);
  }

  /** Deleting the invalid codes removes the disabled ones, the used ones, and the
      enabled ones whose expiry lies in the past, and no others. */
  lemma DeleteInvalidExact(rs: seq<Redemption>, now: int, r: Redemption)
    ensures r in Retained(rs, StillValid(now)) <==>
            && r in rs && r.status != 2 && r.status != 3
            && !(r.status == 1 && r.expiredTime != 0 && r.expiredTime < now)
  {
    RetainedMember(rs, StillValid(now), r);
  }

  // --------------------------------------------------------------------- edits

  /** An edit reaches the code with the id and no other: a status edit sets the
      status alone, a full edit name, quota and expiry, unless the new expiry lies
      in the past. */
  lemma EditExact(rs: seq<Redemption>, i: nat, statusOnly: bool, record: Redemption, now: int)
    requires DistinctIds(rs) && i < |rs|
    ensures var after := AfterUpdate(rs, rs[i].id, statusOnly, record, now);
            && |after| == |rs| && (forall k :: 0 <= k < |rs| && k != i ==> after[k] == rs[k])
            && after[i].id == rs[i].id && after[i].key == rs[i].key && after[i].usedUser == rs[i].usedUser
            && after[i].redeemedTime == rs[i].redeemedTime
            && (statusOnly ==>
                  && after[i].status == record.status && after[i].name == rs[i].name && after[i].quota == rs[i].quota
                  && after[i].expiredTime == rs[i].expiredTime)
            && (!statusOnly && record.expiredTime != 0 && record.expiredTime < now ==> after[i] == rs[i])
            && (!statusOnly && (record.expiredTime == 0 || now <= record.expiredTime) ==>
                  && after[i].status == rs[i].status && after[i].name == record.name && after[i].quota == record.quota
                  && after[i].expiredTime == record.expiredTime)
  {
    assert IdIndex(rs, rs[i].id) == i;
  }

  // ------------------------------------------------------------------- redeeming

  lemma CodeIndex(rs: seq<Redemption>, r: Redemption) returns (i: nat)
    requires DistinctKeys(rs) && r in rs
    ensures i < |rs| && rs[i] == r && KeyIndex(rs, r.key) == i
  {
    i :| 0 <= i < |rs| && rs[i] == r;
    var k := KeyIndex(rs, r.key);
    assert k <= i;
  }

  /** A stored code is redeemed under its key exactly if it is enabled and has no
      expiry or one that is not past. The claim then has its id, key and quota and
      the redeeming user, the code is marked used by that user at that time, and no
      other code changes. */
  lemma RedeemExact(s: State, r: Redemption, key: string, user: nat, now: int)
    requires DistinctKeys(s.codes) && r in s.codes && Trim(key) == r.key != "" && user != 0
    ensures Enabled(s, Redeem(key, user, now)) <==> r.status == 1 && (r.expiredTime == 0 || now <= r.expiredTime)
    ensures Enabled(s, Redeem(key, user, now)) ==>
              var t := Step(s, Redeem(key, user, now));
              && t.pending == s.pending + multiset{Claim(r.id, r.key, user, r.quota)}
              && r.(status := 3, redeemedTime := now, usedUser := user) in t.codes
              && (forall x :: x in s.codes && x != r ==> x in t.codes) && |t.codes| == |s.codes|
  {
    var i := CodeIndex(s.codes, r);
    if Enabled(s, Redeem(key, user, now)) {
      var after := Step(s, Redeem(key, user, now)).codes;
      assert after[i] == r.(status := 3, redeemedTime := now, usedUser := user);
      forall x | x in s.codes && x != r ensures x in after {
        var k :| 0 <= k < |s.codes| && s.codes[k] == x;
        assert after[k] == x;
      }
    }
  }

  /** A key that no code has, a blank key and user 0 redeem nothing. */
  lemma NothingToRedeem(s: State, key: string, user: nat, now: int)
    requires Trim(key) == "" || user == 0 || forall r :: r in s.codes ==> r.key != Trim(key)
    ensures !Enabled(s, Redeem(key, user, now))
  {
    var i := KeyIndex(s.codes, Trim(key));
    if i < |s.codes| { assert s.codes[i] in s.codes; }
  }

  /** Rolling a redeemed code back gives the store as it was. */
  lemma RollbackRestores(rs: seq<Redemption>, r: Redemption, key: string, user: nat, now: int)
    requires DistinctIds(rs) && DistinctKeys(rs) && r in rs && Trim(key) == r.key
    requires r.redeemedTime == 0 && r.usedUser == 0 && Redeemable(rs, key, user, now)
    ensures AfterRollback(AfterRedeem(rs, key, user, now), r.id, user) == rs
  {
    var i := CodeIndex(rs, r);
    var used := AfterRedeem(rs, key, user, now);
    assert used[i].id == r.id && forall k :: 0 <= k < |rs| ==> used[k].id == rs[k].id;
    assert IdIndex(used, r.id) == i;
    assert rs[i].(status := ENABLED, redeemedTime := 0, usedUser := 0) == rs[i];
  }

  /** A rollback for another user changes nothing. */
  lemma RollbackOfOther(rs: seq<Redemption>, i: nat, user: nat)
    requires DistinctIds(rs) && i < |rs| && (rs[i].status != 3 || rs[i].usedUser != user)
    ensures AfterRollback(rs, rs[i].id, user) == rs
  {
    assert IdIndex(rs, rs[i].id) == i;
  }

  // ------------------------------------------------------------- whole lifetimes

  /** The event is about this enabled code: it redeems it, edits it, deletes it, or
      clears it away as expired. */
  predicate Touches(e: Event, r: Redemption) {
    match e
    case Redeem(key, _, _) => Trim(key) == r.key
    case Update(id, _, _, _) => id == r.id
    case Delete(id) => id == r.id
    case DeleteInvalid(now) => r.expiredTime != 0 && r.expiredTime < now
    case _ => false
  }

  lemma ReplacedElsewhere(rs: seq<Redemption>, i: nat, x: Redemption, r: Redemption)
    requires i < |rs| && r in rs && rs[i] != r
    ensures r in rs[i := x]
  {
    var k :| 0 <= k < |rs| && rs[k] == r;
    assert rs[i := x][k] == r;
  }

  lemma UntouchedStays(s: State, e: Event, r: Redemption)
    requires Named(s) && r in s.codes && r.status == 1 && Enabled(s, e) && !Touches(e, r)
    ensures r in Step(s, e).codes
  {
    match e
    case Redeem(key, user, now) =>
      var i := KeyIndex(s.codes, Trim(key));
      ReplacedElsewhere(s.codes, i, MarkUsed(s.codes[i], user, now), r);
    case RolledBack(claim) => RollbackPasses(s.codes, claim.id, claim.user, r);
    case Update(id, statusOnly, record, now) => UpdatePasses(s.codes, id, statusOnly, record, now, r);
    case Delete(id) => DeleteExact(s.codes, id, r);
    case DeleteInvalid(now) => DeleteInvalidExact(s.codes, now, r);
    case _ =>
  }

  lemma RollbackPasses(rs: seq<Redemption>, id: nat, user: nat, r: Redemption)
    requires r in rs && r.status == 1
    ensures r in AfterRollback(rs, id, user)
  {
    if Revertible(rs, id, user) {
      var i := IdIndex(rs, id);
      ReplacedElsewhere(rs, i, rs[i].(status := ENABLED, redeemedTime := 0, usedUser := 0), r);
    }
  }

  lemma UpdatePasses(rs: seq<Redemption>, id: nat, statusOnly: bool, record: Redemption, now: int, r: Redemption)
    requires r in rs && r.id != id
    ensures r in AfterUpdate(rs, id, statusOnly, record, now)
  {
    var i := IdIndex(rs, id);
    if i < |rs| { ReplacedElsewhere(rs, i, AfterUpdate(rs, id, statusOnly, record, now)[i], r); }
  }

  lemma RunSnoc(events: seq<Event>, e: Event)
    ensures var s := Run(events);
            Run(events + [e]) == if s.Some? && Enabled(s.value, e) then Some(Step(s.value, e)) else None
  {
    assert (events + [e])[..|events|] == events;
  }

  lemma {:induction false} UntouchedThrough(events: seq<Event>, more: seq<Event>, r: Redemption)
    requires Run(events + more).Some? && r.status == 1
    requires Run(events).Some? ==> r in Run(events).value.codes
    requires forall i :: 0 <= i < |more| ==> !Touches(more[i], r)
    ensures r in Run(events + more).value.codes
    decreases |more|
  {
    if more == [] {
      assert events + more == events;
    } else {
      var front, last := more[..|more| - 1], more[|more| - 1];
      assert events + more == events + front + [last];
      RunSnoc(events + front, last);
      UntouchedThrough(events, front, r);
      RunKeeps(events + front);
      UntouchedStays(Run(events + front).value, last, r);
    }
  }

  /** The code that a create call makes of its j-th key. */
  function MadeCode(s: State, t: Template, keys: seq<string>, j: nat): Redemption
    requires j < |keys|
  {
    Redemption(MaxId(Ids(s.codes)) + 1 + j, keys[j], 1, Trim(t.name), t.quota, 0, 0, t.expiredTime)
  }

  lemma {:induction false} NewCodeIs(t: Template, keys: seq<string>, id: nat, j: nat)
    requires j < |keys| && id + |keys| - 1 <= U64_MAX
    ensures |NewCodes(t, keys, id)| == |keys|
    ensures NewCodes(t, keys, id)[j] == Redemption(id + j, keys[j], 1, t.name, t.quota, 0, 0, t.expiredTime)
    decreases |keys|
  {
    NewCodesShape(t, keys, id);
    if j > 0 { NewCodeIs(t, keys[1..], id + 1, j - 1); }
  }

  lemma CreateMakes(s: State, t: Template, keys: seq<string>, now: int, j: nat)
    requires Enabled(s, Create(t, keys, now)) && j < |keys|
    ensures MadeCode(s, t, keys, j) in Step(s, Create(t, keys, now)).codes
    ensures forall r :: r in s.codes ==> r in Step(s, Create(t, keys, now)).codes
  {
    var id, t' := MaxId(Ids(s.codes)) + 1, t.(name := Trim(t.name));
    NewCodeIs(t', keys, id, j);
    assert Step(s, Create(t, keys, now)).codes[|s.codes| + j] == NewCodes(t', keys, id)[j];
  }

  /** In every run: a code that was created with expiry x, and that no later event
      redeemed, edited, deleted or cleared away, is redeemed under its key by any
      user at time t if and only if x is 0 or t is not past x; and then the claim is
      for that user and the quota it was created with. */
  lemma CreatedCodeRedeems(events: seq<Event>, t: Template, keys: seq<string>, made: int, j: nat, more: seq<Event>,
                           key: string, user: nat, now: int)
    requires j < |keys| && Trim(key) == keys[j] != "" && user != 0
    requires Run(events + [Create(t, keys, made)] + more).Some? && Run(events).Some?
    requires forall i :: 0 <= i < |more| ==> !Touches(more[i], MadeCode(Run(events).value, t, keys, j))
    ensures var all := events + [Create(t, keys, made)] + more;
            var end, code := Run(all + [Redeem(key, user, now)]), MadeCode(Run(events).value, t, keys, j);
            && (end.Some? <==> t.expiredTime == 0 || now <= t.expiredTime)
            && (end.Some? ==>
                  end.value.pending == Run(all).value.pending + multiset{Claim(code.id, keys[j], user, t.quota)})
  {
    var s, code, start := Run(events).value, MadeCode(Run(events).value, t, keys, j), events + [Create(t, keys, made)];
    RunSnoc(events, Create(t, keys, made));
    if Enabled(s, Create(t, keys, made)) { CreateMakes(s, t, keys, made, j); }
    UntouchedThrough(start, more, code);
    RunKeeps(start + more);
    RunSnoc(start + more, Redeem(key, user, now));
    RedeemExact(Run(start + more).value, code, key, user, now);
  }

  /** From a redemption to the balance: its handler's credit reaches the user it was
      redeemed by, up to the 64-bit maximum, and nobody else. */
  lemma RedemptionPaysOut(events: seq<Event>, r: Redemption, key: string, user: nat, now: int)
    requires Run(events).Some? && r in Run(events).value.codes && r.status == 1 && r.quota > 0
    requires Trim(key) == r.key != "" && user != 0 && (r.expiredTime == 0 || now <= r.expiredTime)
    ensures var s, claim := Run(events).value, Claim(r.id, r.key, user, r.quota);
            var end := Run(events + [Redeem(key, user, now)] + [CreditApplied(claim)]);
            && end.Some? && end.value.pending == s.pending && end.value.credited == s.credited + multiset{claim}
            && (forall u: nat :: BalanceOf(end.value, u)
                  == if u != user then BalanceOf(s, u)
                     else if BalanceOf(s, u) + r.quota > I64_MAX then I64_MAX else BalanceOf(s, u) + r.quota)
  {
    RunKeeps(events);
    RedeemExact(Run(events).value, r, key, user, now);
    RunSnoc(events, Redeem(key, user, now));
    RunSnoc(events + [Redeem(key, user, now)], CreditApplied(Claim(r.id, r.key, user, r.quota)));
  }

  /** From a redemption back: when its credit is refused and rolled back, the codes
      are as they were and nobody has anything of it. */
  lemma RefusedRedemptionUndone(events: seq<Event>, r: Redemption, key: string, user: nat, now: int)
    requires Run(events).Some? && r in Run(events).value.codes && r.status == 1
    requires r.redeemedTime == 0 && r.usedUser == 0
    requires Trim(key) == r.key != "" && user != 0 && (r.expiredTime == 0 || now <= r.expiredTime)
    ensures var claim := Claim(r.id, r.key, user, r.quota);
            Run(events + [Redeem(key, user, now)] + [CreditRefused(claim)] + [RolledBack(claim)]) == Run(events)
  {
    var claim := Claim(r.id, r.key, user, r.quota);
    RunKeeps(events);
    RefusalUndone(Run(events).value, r, key, user, now);
    RunSnoc(events, Redeem(key, user, now));
    RunSnoc(events + [Redeem(key, user, now)], CreditRefused(claim));
    RunSnoc(events + [Redeem(key, user, now)] + [CreditRefused(claim)], RolledBack(claim));
  }

  lemma RefusalUndone(s: State, r: Redemption, key: string, user: nat, now: int)
    requires Named(s) && r in s.codes && r.status == 1 && r.redeemedTime == 0 && r.usedUser == 0
    requires Trim(key) == r.key != "" && user != 0 && (r.expiredTime == 0 || now <= r.expiredTime)
    ensures Enabled(s, Redeem(key, user, now))
    ensures var t, claim := Step(s, Redeem(key, user, now)), Claim(r.id, r.key, user, r.quota);
            && Enabled(t, CreditRefused(claim)) && Enabled(Step(t, CreditRefused(claim)), RolledBack(claim))
            && Step(Step(t, CreditRefused(claim)), RolledBack(claim)) == s
  {
    RedeemExact(s, r, key, user, now);
    RollbackRestores(s.codes, r, key, user, now);
    var t, claim := Step(s, Redeem(key, user, now)), Claim(r.id, r.key, user, r.quota);
    assert t.pending - multiset{claim} == s.pending;
    assert s.failing + multiset{claim} - multiset{claim} == s.failing;
  }

  /** A handler that dies leaves its claim lost, and nothing else changes. */
  lemma LostHandlerLeaves(s: State, c: Claim)
    requires c in InFlight(s)
    ensures Enabled(s, HandlerLost(c))
    ensures var t := Step(s, HandlerLost(c));
            && t.lost == s.lost + multiset{c} && InFlight(t) == InFlight(s) - multiset{c}
            && (t.codes, t.credited, t.balances) == (s.codes, s.credited, s.balances)
  {
  }
}
