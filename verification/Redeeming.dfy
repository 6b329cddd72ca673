/** The redeem handler as a protocol over two stores: it marks the code used in
    the billing store, then credits the user's quota in the management store,
    and puts the code back when the credit fails. Handlers of many requests and
    administrator edits interleave in any order. */
module Redeeming {
  import opened Prelude
  import opened Text
  import opened Billing

  /** One successful redeem step: this code, with this quota, for this user. */
  datatype Claim = Claim(id: nat, key: string, user: nat, quota: int)

  /** `pending` handlers have marked their code and not yet credited it;
      `failing` handlers saw the credit fail and must put the code back.
      `credited` is every credit the management store applied. `lost` are the
      claims whose handler died, or whose rollback call failed, `marked` those an
      administrator marked used by hand. `retired` are the used codes that were
      deleted, `issued` every key ever created. `balances` are the quotas that
      the credits add up to, from 0. */
  datatype State = State(codes: seq<Redemption>, pending: multiset<Claim>, failing: multiset<Claim>,
                         credited: multiset<Claim>, lost: multiset<Claim>, marked: multiset<Claim>,
                         retired: seq<Redemption>, issued: set<string>, balances: map<nat, int>)

  datatype Event =
    | Redeem(key: string, user: nat, now: int)
    | CreditApplied(claim: Claim)
    | CreditRefused(claim: Claim)
    | RolledBack(claim: Claim)
    | HandlerLost(claim: Claim)
    | Create(template: Template, keys: seq<string>, now: int)
    | Update(id: nat, statusOnly: bool, record: Redemption, now: int)
    | Delete(id: nat)
    | DeleteInvalid(now: int)

  const Start := State([], multiset{}, multiset{}, multiset{}, multiset{}, multiset{}, [], {}, map[])

  function InFlight(s: State): multiset<Claim> {
    s.pending + s.failing
  }

  // The claims that a store's used codes stand for, one for every used code.

  function ClaimOf(r: Redemption): Claim {
    Claim(r.id, r.key, r.usedUser, r.quota)
  }

  function Used(r: Redemption, c: Claim): nat {
    if r.status == USED && ClaimOf(r) == c then 1 else 0
  }

  /** How many used codes of `rs` stand for this claim. */
  function Claimed(rs: seq<Redemption>, c: Claim): nat {
    if rs == [] then 0 else Claimed(rs[..|rs| - 1], c) + Used(rs[|rs| - 1], c)
  }

  // ------------------------------------------------------- what the events demand

  /** Keys come from a random generator: never one that was issued before. */
  predicate FreshKeys(s: State, keys: seq<string>) {
    && (forall i :: 0 <= i < |keys| ==> keys[i] !in s.issued)
    && (forall i, j :: 0 <= i < j < |keys| ==> keys[i] != keys[j])
  }

  /** An administrator may edit a code freely, except that a used code does not
      stop being used and keeps its quota. */
  predicate EditAllowed(s: State, id: nat, statusOnly: bool, record: Redemption) {
    var i := IdIndex(s.codes, id);
    i < |s.codes| ==>
      s.codes[i].status == USED ==>
        if statusOnly then record.status == USED else record.quota == s.codes[i].quota
  }

  predicate Enabled(s: State, e: Event) {
    match e
    case Redeem(key, user, now) => Redeemable(s.codes, key, user, now)
    case CreditApplied(claim) => claim in s.pending && claim.quota != 0
    case CreditRefused(claim) => claim in s.pending
    case RolledBack(claim) => claim in s.failing
    case HandlerLost(claim) => claim in s.pending + s.failing
    case Create(template, keys, now) =>
      && TemplateOk(template, |keys|, now) && FreshKeys(s, keys)
      && MaxId(Ids(s.codes)) + |keys| <= U64_MAX
    case Update(id, statusOnly, record, now) => EditAllowed(s, id, statusOnly, record)
    case Delete(id) => forall c :: c in InFlight(s) ==> c.id != id
    case DeleteInvalid(now) => InFlight(s) == multiset{}
  }

  function RedeemStep(s: State, key: string, user: nat, now: int): State
    requires Redeemable(s.codes, key, user, now)
  {
    var code := s.codes[KeyIndex(s.codes, Trim(key))];
    s.(codes := AfterRedeem(s.codes, key, user, now),
       pending := s.pending + multiset{Claim(code.id, code.key, user, code.quota)})
  }

  /** The claim that an edit makes by marking an unused code used. */
  function MarkedBy(s: State, id: nat, statusOnly: bool, record: Redemption): multiset<Claim> {
    var i := IdIndex(s.codes, id);
    if statusOnly && i < |s.codes| && s.codes[i].status != USED && record.status == USED
    then multiset{ClaimOf(s.codes[i])} else multiset{}
  }

  function BalanceOf(s: State, user: nat): int {
    if user in s.balances then s.balances[user] else 0
  }

  /** The quota store's saturating addition. */
  function Adjusted(quota: int, delta: int): int {
    if delta > 0 then if quota + delta > I64_MAX then I64_MAX else quota + delta
    else
      var less := if -delta > I64_MAX then I64_MAX else -delta;
      if quota - less < I64_MIN then I64_MIN else quota - less
  }

  function RemoveStep(s: State, keep: Redemption -> bool): State {
    s.(codes := Retained(s.codes, keep), retired := s.retired + Removed(s.codes, keep))
  }

  function Step(s: State, e: Event): State
    requires Enabled(s, e)
  {
    match e
    case Redeem(key, user, now) => RedeemStep(s, key, user, now)
    case CreditApplied(claim) =>
      s.(pending := s.pending - multiset{claim}, credited := s.credited + multiset{claim},
         balances := s.balances[claim.user := Adjusted(BalanceOf(s, claim.user), claim.quota)])
    case CreditRefused(claim) =>
      s.(pending := s.pending - multiset{claim}, failing := s.failing + multiset{claim})
    case RolledBack(claim) =>
      s.(codes := AfterRollback(s.codes, claim.id, claim.user), failing := s.failing - multiset{claim})
    case HandlerLost(claim) =>
      if claim in s.pending then s.(pending := s.pending - multiset{claim}, lost := s.lost + multiset{claim})
      else s.(failing := s.failing - multiset{claim}, lost := s.lost + multiset{claim})
    case Create(template, keys, now) =>
      s.(codes := AfterCreate(s.codes, template, keys), issued := s.issued + (set k | k in keys))
    case Update(id, statusOnly, record, now) =>
      s.(codes := AfterUpdate(s.codes, id, statusOnly, record, now),
         marked := s.marked + MarkedBy(s, id, statusOnly, record))
    case Delete(id) => RemoveStep(s, OtherIds(id))
    case DeleteInvalid(now) => RemoveStep(s, StillValid(now))
  }

  function Removed(rs: seq<Redemption>, keep: Redemption -> bool): seq<Redemption> {
    if rs == [] then []
    else Removed(rs[..|rs| - 1], keep) + if keep(rs[|rs| - 1]) then [] else [rs[|rs| - 1]]
  }

  function Run(events: seq<Event>): Option<State> {
    if events == [] then Some(Start)
    else
      var before := Run(events[..|events| - 1]);
      var e := events[|events| - 1];
      if before.Some? && Enabled(before.value, e) then Some(Step(before.value, e)) else None
  }

  // ------------------------------------------------------------------ invariant

  predicate DistinctIds(rs: seq<Redemption>) {
    forall i, j :: 0 <= i < j < |rs| ==> rs[i].id != rs[j].id
  }

  predicate DistinctKeys(rs: seq<Redemption>) {
    forall i, j :: 0 <= i < j < |rs| ==> rs[i].key != rs[j].key
  }

  function KeysOf(rs: seq<Redemption>): set<string> {
    set r | r in rs :: r.key
  }

  /** Ids tell the stored codes apart, keys all codes that ever were used. */
  predicate Named(s: State) {
    && DistinctIds(s.codes)
    && DistinctKeys(s.codes) && DistinctKeys(s.retired)
    && KeysOf(s.codes) !! KeysOf(s.retired)
    && KeysOf(s.codes) + KeysOf(s.retired) <= s.issued
  }

  /** Every used code, present or deleted, is accounted for exactly once: its
      handler is still at work, or credited it, or was lost, or it was marked by
      hand. */
  predicate BalancedAt(s: State, c: Claim) {
    Claimed(s.codes, c) + Claimed(s.retired, c)
    == s.pending[c] + s.failing[c] + s.credited[c] + s.lost[c] + s.marked[c]
  }

  /** The code of a handler at work is in the store, marked used. */
  predicate HeldAt(s: State, c: Claim) {
    s.pending[c] + s.failing[c] <= Claimed(s.codes, c)
  }

  ghost predicate Accounted(s: State) {
    forall c :: BalancedAt(s, c) && HeldAt(s, c)
  }

  // ------------------------------------------------------- claims under changes

  lemma {:induction false} ClaimedAfterUpdate(rs: seq<Redemption>, i: nat, r: Redemption, c: Claim)
    requires i < |rs|
    ensures Claimed(rs[i := r], c) + Used(rs[i], c) == Claimed(rs, c) + Used(r, c)
  {
    var n := |rs| - 1;
    if i == n {
      assert rs[i := r][..n] == rs[..n];
    } else {
      ClaimedAfterUpdate(rs[..n], i, r, c);
      assert rs[i := r][..n] == rs[..n][i := r];
    }
  }

  lemma {:induction false} ClaimedAppend(a: seq<Redemption>, b: seq<Redemption>, c: Claim)
    ensures Claimed(a + b, c) == Claimed(a, c) + Claimed(b, c)
  {
    if b == [] {
      assert a + b == a;
    } else {
      assert (a + b)[..|a + b| - 1] == a + b[..|b| - 1];
      ClaimedAppend(a, b[..|b| - 1], c);
    }
  }

  lemma ClaimedPush(rs: seq<Redemption>, r: Redemption, c: Claim)
    ensures Claimed(rs + [r], c) == Claimed(rs, c) + Used(r, c)
  {
    assert (rs + [r])[..|rs|] == rs;
  }

  lemma {:induction false} ClaimedSplit(rs: seq<Redemption>, keep: Redemption -> bool, c: Claim)
    ensures Claimed(rs, c) == Claimed(Retained(rs, keep), c) + Claimed(Removed(rs, keep), c)
  {
    if rs != [] {
      var front, r := rs[..|rs| - 1], rs[|rs| - 1];
      ClaimedSplit(front, keep, c);
      if keep(r) {
        ClaimedPush(Retained(front, keep), r, c);
        assert Removed(front, keep) + [] == Removed(front, keep);
      } else {
        ClaimedPush(Removed(front, keep), r, c);
        assert Retained(front, keep) + [] == Retained(front, keep);
      }
    }
  }

  /** A claim that is counted names a used code. */
  lemma {:induction false} ClaimIndex(rs: seq<Redemption>, c: Claim) returns (i: nat)
    requires Claimed(rs, c) > 0
    ensures i < |rs| && rs[i].status == USED && ClaimOf(rs[i]) == c
  {
    var n := |rs| - 1;
    if Used(rs[n], c) == 1 { i := n; } else { i := ClaimIndex(rs[..n], c); }
  }

  /** Distinct keys give distinct claims: no claim counts twice. */
  lemma {:induction false} ClaimedOnce(rs: seq<Redemption>, c: Claim)
    requires DistinctKeys(rs)
    ensures Claimed(rs, c) <= 1
  {
    if rs != [] {
      var n := |rs| - 1;
      ClaimedOnce(rs[..n], c);
      if Claimed(rs[..n], c) > 0 {
        var i := ClaimIndex(rs[..n], c);
        assert rs[i].key == c.key;
        assert Used(rs[n], c) == 0;
      }
    }
  }

  // ------------------------------------------------------ names under changes

  predicate SameNames(a: seq<Redemption>, b: seq<Redemption>) {
    |a| == |b| && forall i :: 0 <= i < |a| ==> a[i].id == b[i].id && a[i].key == b[i].key
  }

  lemma SameNamesNamed(s: State, codes: seq<Redemption>)
    requires Named(s) && SameNames(s.codes, codes)
    ensures Named(s.(codes := codes))
  {
    forall k | k in KeysOf(codes) ensures k in KeysOf(s.codes) {
      var i :| 0 <= i < |codes| && codes[i].key == k;
      assert s.codes[i] in s.codes;
    }
  }

  lemma {:induction false} SplitNames(rs: seq<Redemption>, keep: Redemption -> bool)
    requires DistinctKeys(rs)
    ensures DistinctKeys(Retained(rs, keep)) && DistinctKeys(Removed(rs, keep))
    ensures KeysOf(Retained(rs, keep)) !! KeysOf(Removed(rs, keep))
    ensures KeysOf(Retained(rs, keep)) <= KeysOf(rs) && KeysOf(Removed(rs, keep)) <= KeysOf(rs)
  {
    if rs != [] {
      var front, r := rs[..|rs| - 1], rs[|rs| - 1];
      SplitNames(front, keep);
      assert rs == front + [r];
      KeysOfPush(front, r);
      assert r.key !in KeysOf(front);
      if keep(r) {
        KeysOfPush(Retained(front, keep), r);
        assert Removed(front, keep) + [] == Removed(front, keep);
      } else {
        KeysOfPush(Removed(front, keep), r);
        assert Retained(front, keep) + [] == Retained(front, keep);
      }
    }
  }

  lemma KeysOfPush(rs: seq<Redemption>, r: Redemption)
    ensures KeysOf(rs + [r]) == KeysOf(rs) + {r.key}
    ensures DistinctKeys(rs) && r.key !in KeysOf(rs) ==> DistinctKeys(rs + [r])
  {
    forall x | x in rs ensures x in rs + [r] {}
    assert r in rs + [r];
    forall i | 0 <= i < |rs| ensures rs[i].key in KeysOf(rs) {
      assert rs[i] in rs;
    }
  }

  lemma {:induction false} RetainedIds(rs: seq<Redemption>, keep: Redemption -> bool)
    requires DistinctIds(rs)
    ensures DistinctIds(Retained(rs, keep))
    ensures forall r :: r in Retained(rs, keep) ==> r in rs
    ensures forall r :: r in Removed(rs, keep) ==> !keep(r)
  {
    if rs != [] {
      var front, r := rs[..|rs| - 1], rs[|rs| - 1];
      RetainedIds(front, keep);
      assert forall x :: x in front ==> x.id != r.id;
    }
  }

  lemma KeysOfAppend(a: seq<Redemption>, b: seq<Redemption>)
    ensures KeysOf(a + b) == KeysOf(a) + KeysOf(b)
    ensures DistinctKeys(a) && DistinctKeys(b) && KeysOf(a) !! KeysOf(b) ==> DistinctKeys(a + b)
  {
    forall x | x in a || x in b ensures x in a + b {}
    forall i, j | 0 <= i < |a| && 0 <= j < |b| ensures a[i].key in KeysOf(a) && b[j].key in KeysOf(b) {
      assert a[i] in a && b[j] in b;
    }
  }

  lemma RemoveKeepsNames(s: State, keep: Redemption -> bool)
    requires Named(s)
    ensures Named(RemoveStep(s, keep))
  {
    SplitNames(s.codes, keep);
    RetainedIds(s.codes, keep);
    KeysOfAppend(s.retired, Removed(s.codes, keep));
  }

  lemma {:induction false} NewCodesShape(t: Template, keys: seq<string>, id: nat)
    requires keys == [] || id + |keys| - 1 <= U64_MAX
    ensures |NewCodes(t, keys, id)| == |keys|
    ensures forall i :: 0 <= i < |keys| ==>
              var r := NewCodes(t, keys, id)[i]; r.id == id + i && r.key == keys[i] && r.status == ENABLED
  {
    if keys != [] {
      NewCodesShape(t, keys[1..], SatSucc(id));
    }
  }

  lemma {:induction false} UnusedUnclaimed(rs: seq<Redemption>, c: Claim)
    requires forall i :: 0 <= i < |rs| ==> rs[i].status != USED
    ensures Claimed(rs, c) == 0
  {
    if rs != [] { UnusedUnclaimed(rs[..|rs| - 1], c); }
  }

  lemma CreateKeepsNames(s: State, t: Template, keys: seq<string>)
    requires Named(s) && FreshKeys(s, keys)
    requires MaxId(Ids(s.codes)) + |keys| <= U64_MAX
    ensures Named(s.(codes := AfterCreate(s.codes, t, keys), issued := s.issued + (set k | k in keys)))
  {
    var added := NewCodes(t.(name := Trim(t.name)), keys, SatSucc(MaxId(Ids(s.codes))));
    if keys != [] {
      NewCodesShape(t.(name := Trim(t.name)), keys, SatSucc(MaxId(Ids(s.codes))));
      MaxIdBounds(Ids(s.codes));
      assert forall i :: 0 <= i < |s.codes| ==> Ids(s.codes)[i] == s.codes[i].id;
    }
    NewKeys(added, keys);
    KeysOfAppend(s.codes, added);
    assert KeysOf(added) !! s.issued;
  }

  lemma NewKeys(added: seq<Redemption>, keys: seq<string>)
    requires |added| == |keys| && forall i :: 0 <= i < |keys| ==> added[i].key == keys[i]
    ensures KeysOf(added) == set k | k in keys
  {
    forall k | k in keys ensures k in KeysOf(added) {
      var i :| 0 <= i < |keys| && keys[i] == k;
      assert added[i] in added;
    }
  }

  // ------------------------------------------------------- each event, one claim

  lemma RedeemAccounts(s: State, key: string, user: nat, now: int, c: Claim)
    requires BalancedAt(s, c) && HeldAt(s, c) && Redeemable(s.codes, key, user, now)
    ensures BalancedAt(RedeemStep(s, key, user, now), c) && HeldAt(RedeemStep(s, key, user, now), c)
  {
    var i := KeyIndex(s.codes, Trim(key));
    ClaimedAfterUpdate(s.codes, i, MarkUsed(s.codes[i], user, now), c);
  }

  /** With distinct ids the rollback finds the code its handler marked. */
  lemma HeldIsFound(s: State, claim: Claim)
    requires DistinctIds(s.codes) && HeldAt(s, claim) && claim in s.failing
    ensures var i := IdIndex(s.codes, claim.id);
            i < |s.codes| && s.codes[i].status == USED && ClaimOf(s.codes[i]) == claim
  {
    var j := ClaimIndex(s.codes, claim);
    var i := IdIndex(s.codes, claim.id);
    assert i <= j;
  }

  lemma RollbackAccounts(s: State, claim: Claim, c: Claim)
    requires DistinctIds(s.codes) && claim in s.failing && HeldAt(s, claim)
    requires BalancedAt(s, c) && HeldAt(s, c)
    ensures var t := Step(s, RolledBack(claim)); BalancedAt(t, c) && HeldAt(t, c)
  {
    HeldIsFound(s, claim);
    var i := IdIndex(s.codes, claim.id);
    ClaimedAfterUpdate(s.codes, i, s.codes[i].(status := ENABLED, redeemedTime := 0, usedUser := 0), c);
  }

  lemma CreateAccounts(s: State, t: Template, keys: seq<string>, c: Claim)
    requires MaxId(Ids(s.codes)) + |keys| <= U64_MAX
    ensures Claimed(AfterCreate(s.codes, t, keys), c) == Claimed(s.codes, c)
  {
    var first := SatSucc(MaxId(Ids(s.codes)));
    var added := NewCodes(t.(name := Trim(t.name)), keys, first);
    ClaimedAppend(s.codes, added, c);
    if keys != [] {
      NewCodesShape(t.(name := Trim(t.name)), keys, first);
      UnusedUnclaimed(added, c);
    }
  }

  lemma UpdateAccounts(s: State, id: nat, statusOnly: bool, record: Redemption, now: int, c: Claim)
    requires EditAllowed(s, id, statusOnly, record)
    ensures Claimed(AfterUpdate(s.codes, id, statusOnly, record, now), c)
         == Claimed(s.codes, c) + MarkedBy(s, id, statusOnly, record)[c]
  {
    var i := IdIndex(s.codes, id);
    if i < |s.codes| {
      if statusOnly {
        ClaimedAfterUpdate(s.codes, i, s.codes[i].(status := record.status), c);
      } else {
        ClaimedAfterUpdate(s.codes, i, s.codes[i].(name := record.name, quota := record.quota,
                                                   expiredTime := record.expiredTime), c);
      }
    }
  }

  lemma RemoveAccounts(s: State, keep: Redemption -> bool, c: Claim)
    requires BalancedAt(s, c) && HeldAt(s, c)
    requires s.pending[c] + s.failing[c] > 0 ==> Claimed(Removed(s.codes, keep), c) == 0
    ensures BalancedAt(RemoveStep(s, keep), c) && HeldAt(RemoveStep(s, keep), c)
  {
    ClaimedSplit(s.codes, keep, c);
    ClaimedAppend(s.retired, Removed(s.codes, keep), c);
  }

  lemma {:induction false} OthersStay(rs: seq<Redemption>, id: nat, c: Claim)
    requires c.id != id
    ensures Claimed(Removed(rs, OtherIds(id)), c) == 0
  {
    if rs != [] {
      var front, r := rs[..|rs| - 1], rs[|rs| - 1];
      OthersStay(front, id, c);
      ClaimedPush(Removed(front, OtherIds(id)), r, c);
      assert Removed(front, OtherIds(id)) + [] == Removed(front, OtherIds(id));
    }
  }

  lemma DeleteAccounts(s: State, id: nat, c: Claim)
    requires DistinctIds(s.codes) && BalancedAt(s, c) && HeldAt(s, c) && Enabled(s, Delete(id))
    ensures var t := Step(s, Delete(id)); BalancedAt(t, c) && HeldAt(t, c)
  {
    if c.id != id { OthersStay(s.codes, id, c); }
    assert c in InFlight(s) ==> c.id != id;
    RemoveAccounts(s, OtherIds(id), c);
  }

  lemma StepAccounts(s: State, e: Event, c: Claim)
    requires Named(s) && Accounted(s) && Enabled(s, e)
    ensures BalancedAt(Step(s, e), c) && HeldAt(Step(s, e), c)
  {
    assert BalancedAt(s, c) && HeldAt(s, c);
    match e
    case Redeem(key, user, now) => RedeemAccounts(s, key, user, now, c);
    case RolledBack(claim) =>
      assert HeldAt(s, claim);
      RollbackAccounts(s, claim, c);
    case Create(t, keys, now) => CreateAccounts(s, t, keys, c);
    case Update(id, statusOnly, record, now) => UpdateAccounts(s, id, statusOnly, record, now, c);
    case Delete(id) => DeleteAccounts(s, id, c);
    case DeleteInvalid(now) =>
      assert InFlight(s)[c] == 0;
      RemoveAccounts(s, StillValid(now), c);
    case CreditApplied(claim) =>
    case CreditRefused(claim) =>
    case HandlerLost(claim) =>
  }

  lemma StepNames(s: State, e: Event)
    requires Named(s) && Enabled(s, e)
    ensures Named(Step(s, e))
  {
    match e
    case Redeem(key, user, now) => SameNamesNamed(s, AfterRedeem(s.codes, key, user, now));
    case RolledBack(claim) => SameNamesNamed(s, AfterRollback(s.codes, claim.id, claim.user));
    case Create(t, keys, now) => CreateKeepsNames(s, t, keys);
    case Update(id, statusOnly, record, now) =>
      SameNamesNamed(s, AfterUpdate(s.codes, id, statusOnly, record, now));
      assert Step(s, e).codes == AfterUpdate(s.codes, id, statusOnly, record, now);
    case Delete(id) => RemoveKeepsNames(s, OtherIds(id));
    case DeleteInvalid(now) => RemoveKeepsNames(s, StillValid(now));
    case CreditApplied(claim) =>
    case CreditRefused(claim) =>
    case HandlerLost(claim) =>
  }

  lemma {:induction false} RunKeeps(events: seq<Event>)
    requires Run(events).Some?
    ensures Named(Run(events).value) && Accounted(Run(events).value)
  {
    if events != [] {
      var before := events[..|events| - 1];
      RunKeeps(before);
      var s, e := Run(before).value, events[|events| - 1];
      StepNames(s, e);
      forall c ensures BalancedAt(Step(s, e), c) && HeldAt(Step(s, e), c) {
        StepAccounts(s, e, c);
      }
    }
  }

  // --------------------------------------------------------------- main results

  lemma ClaimedKey(rs: seq<Redemption>, c: Claim)
    requires Claimed(rs, c) > 0
    ensures c.key in KeysOf(rs)
  {
    var i := ClaimIndex(rs, c);
    assert rs[i] in rs;
  }

  /** Two claims on the same key that are both on record are the same claim. */
  lemma SameKeySameClaim(s: State, c: Claim, d: Claim)
    requires Named(s) && c.key == d.key
    requires Claimed(s.codes, c) + Claimed(s.retired, c) > 0
    requires Claimed(s.codes, d) + Claimed(s.retired, d) > 0
    ensures c == d && Claimed(s.codes, c) + Claimed(s.retired, c) == 1
  {
    ClaimedOnce(s.codes, c);
    ClaimedOnce(s.retired, c);
    if Claimed(s.codes, c) > 0 {
      ClaimedKey(s.codes, c);
      if Claimed(s.retired, c) > 0 { ClaimedKey(s.retired, c); }
      if Claimed(s.retired, d) > 0 { ClaimedKey(s.retired, d); }
      var i := ClaimIndex(s.codes, c);
      var j := ClaimIndex(s.codes, d);
    } else {
      ClaimedKey(s.retired, c);
      if Claimed(s.codes, d) > 0 { ClaimedKey(s.codes, d); }
      var i := ClaimIndex(s.retired, c);
      var j := ClaimIndex(s.retired, d);
    }
  }

  /** Whatever the interleaving of handlers, failures and allowed administrator
      edits, no code is credited twice: not to one user, not to two. */
  lemma CreditedAtMostOnce(events: seq<Event>, c: Claim, d: Claim)
    requires Run(events).Some?
    requires c in Run(events).value.credited && d in Run(events).value.credited && c.key == d.key
    ensures c == d && Run(events).value.credited[c] == 1
  {
    RunKeeps(events);
    var s := Run(events).value;
    assert BalancedAt(s, c) && BalancedAt(s, d);
    SameKeySameClaim(s, c, d);
  }

  /** In every run, a rollback finds the very code its handler marked. */
  lemma RollbackFindsCode(events: seq<Event>, claim: Claim)
    requires Run(events).Some? && claim in Run(events).value.failing
    ensures var codes := Run(events).value.codes;
            var i := IdIndex(codes, claim.id);
            i < |codes| && codes[i].status == USED && ClaimOf(codes[i]) == claim
  {
    RunKeeps(events);
    assert HeldAt(Run(events).value, claim);
    HeldIsFound(Run(events).value, claim);
  }

  /** A code that can be redeemed has never been credited and no handler holds
      it: a failed credit leaves no trace once it is rolled back. */
  lemma RedeemableIsClean(events: seq<Event>, c: Claim)
    requires Run(events).Some?
    requires var s := Run(events).value;
             var i := KeyIndex(s.codes, c.key);
             i < |s.codes| && s.codes[i].status != USED
    ensures c !in Run(events).value.credited && c !in InFlight(Run(events).value)
  {
    RunKeeps(events);
    UnusedIsUnclaimed(Run(events).value, c);
    assert BalancedAt(Run(events).value, c);
  }

  lemma UnusedIsUnclaimed(s: State, c: Claim)
    requires Named(s)
    requires var i := KeyIndex(s.codes, c.key); i < |s.codes| && s.codes[i].status != USED
    ensures Claimed(s.codes, c) == 0 && Claimed(s.retired, c) == 0
  {
    var i := KeyIndex(s.codes, c.key);
    assert s.codes[i] in s.codes && s.codes[i].key in KeysOf(s.codes);
    if Claimed(s.codes, c) > 0 {
      var j := ClaimIndex(s.codes, c);
      assert false;
    }
    if Claimed(s.retired, c) > 0 {
      ClaimedKey(s.retired, c);
      assert false;
    }
  }

  // What a user received, and what the used codes say the user was given.

  function Amount(c: Claim, user: nat): int {
    if c.user == user then c.quota else 0
  }

  ghost function Received(credits: multiset<Claim>, user: nat): int
    decreases |credits|
  {
    if credits == multiset{} then 0
    else var c :| c in credits; Amount(c, user) + Received(credits - multiset{c}, user)
  }

  function Given(rs: seq<Redemption>, user: nat): int {
    if rs == [] then 0
    else var r := rs[|rs| - 1];
         Given(rs[..|rs| - 1], user) + if r.status == USED then Amount(ClaimOf(r), user) else 0
  }

  /** The order in which credits are added up does not matter. */
  lemma {:induction false} ReceivedTakes(credits: multiset<Claim>, x: Claim, user: nat)
    requires x in credits
    ensures Received(credits, user) == Amount(x, user) + Received(credits - multiset{x}, user)
    decreases |credits|
  {
    var c :| c in credits && Received(credits, user) == Amount(c, user) + Received(credits - multiset{c}, user);
    if c != x {
      ReceivedTakes(credits - multiset{c}, x, user);
      ReceivedTakes(credits - multiset{x}, c, user);
      assert credits - multiset{c} - multiset{x} == credits - multiset{x} - multiset{c};
    }
  }

  lemma {:induction false} ReceivedIsGiven(credits: multiset<Claim>, rs: seq<Redemption>, user: nat)
    requires forall c :: credits[c] == Claimed(rs, c)
    ensures Received(credits, user) == Given(rs, user)
  {
    if rs == [] {
      assert forall c :: credits[c] == 0;
      assert credits == multiset{};
    } else {
      var front, r := rs[..|rs| - 1], rs[|rs| - 1];
      if r.status == USED {
        var rest := credits - multiset{ClaimOf(r)};
        assert credits[ClaimOf(r)] == Claimed(rs, ClaimOf(r));
        ReceivedTakes(credits, ClaimOf(r), user);
        forall c ensures rest[c] == Claimed(front, c) {
          assert credits[c] == Claimed(rs, c);
        }
        ReceivedIsGiven(rest, front, user);
      } else {
        forall c ensures credits[c] == Claimed(front, c) {
          assert credits[c] == Claimed(rs, c);
        }
        ReceivedIsGiven(credits, front, user);
      }
    }
  }

  lemma {:induction false} ReceivedSum(a: multiset<Claim>, b: multiset<Claim>, user: nat)
    ensures Received(a + b, user) == Received(a, user) + Received(b, user)
    decreases |b|
  {
    if b == multiset{} {
      assert a + b == a;
    } else {
      var x :| x in b;
      ReceivedTakes(b, x, user);
      ReceivedTakes(a + b, x, user);
      assert a + b - multiset{x} == a + (b - multiset{x});
      ReceivedSum(a, b - multiset{x}, user);
    }
  }

  /** Quota is conserved: once every handler has finished and none was lost, the
      quota of the used codes recorded for a user, deleted ones included, is the
      credit that user received plus what was marked used by hand. */
  lemma QuietRunConserves(events: seq<Event>, user: nat)
    requires Run(events).Some?
    requires InFlight(Run(events).value) == multiset{} && Run(events).value.lost == multiset{}
    ensures var s := Run(events).value;
            Received(s.credited, user) + Received(s.marked, user) == Given(s.codes + s.retired, user)
  {
    RunKeeps(events);
    var s := Run(events).value;
    forall c ensures (s.credited + s.marked)[c] == Claimed(s.codes + s.retired, c) {
      assert BalancedAt(s, c) && InFlight(s)[c] == 0 && s.lost[c] == 0;
      ClaimedAppend(s.codes, s.retired, c);
    }
    ReceivedIsGiven(s.credited + s.marked, s.codes + s.retired, user);
    ReceivedSum(s.credited, s.marked, user);
  }

  function Capped(n: int): int {
    if n > I64_MAX then I64_MAX else n
  }

  ghost predicate Positive(credits: multiset<Claim>) {
    forall c :: c in credits ==> c.quota > 0
  }

  lemma {:induction false} ReceivedPositive(credits: multiset<Claim>, user: nat)
    requires Positive(credits)
    ensures Received(credits, user) >= 0
    decreases |credits|
  {
    if credits != multiset{} {
      var c :| c in credits;
      ReceivedTakes(credits, c, user);
      ReceivedPositive(credits - multiset{c}, user);
    }
  }

  lemma CreditBalance(s: State, claim: Claim, user: nat)
    requires Enabled(s, CreditApplied(claim)) && claim.quota > 0 && Positive(s.credited)
    requires BalanceOf(s, user) == Capped(Received(s.credited, user))
    ensures var t := Step(s, CreditApplied(claim)); BalanceOf(t, user) == Capped(Received(t.credited, user))
  {
    var t := Step(s, CreditApplied(claim));
    ReceivedTakes(t.credited, claim, user);
    assert t.credited - multiset{claim} == s.credited;
    ReceivedPositive(s.credited, user);
  }

  lemma OnlyCreditsCredit(s: State, e: Event)
    requires Enabled(s, e)
    ensures var t := Step(s, e);
            if e.CreditApplied? then t.credited == s.credited + multiset{e.claim}
            else t.credited == s.credited && t.balances == s.balances
  {
  }

  lemma StepBalance(s: State, e: Event, user: nat)
    requires Enabled(s, e) && Positive(Step(s, e).credited)
    requires Positive(s.credited) ==> BalanceOf(s, user) == Capped(Received(s.credited, user))
    ensures var t := Step(s, e); BalanceOf(t, user) == Capped(Received(t.credited, user))
  {
    OnlyCreditsCredit(s, e);
    if e.CreditApplied? {
      assert Positive(s.credited) && e.claim in Step(s, e).credited;
      CreditBalance(s, e.claim, user);
    }
  }

  lemma PositiveBefore(s: State, e: Event)
    requires Enabled(s, e) && Positive(Step(s, e).credited)
    ensures Positive(s.credited)
  {
    OnlyCreditsCredit(s, e);
  }

  /** The 64-bit balance that the credits leave is their sum, capped: saturation
      loses nothing but what does not fit, in whatever order credits come. */
  lemma {:induction false} BalanceIsReceived(events: seq<Event>, user: nat)
    requires Run(events).Some? && Positive(Run(events).value.credited)
    ensures var s := Run(events).value; BalanceOf(s, user) == Capped(Received(s.credited, user))
  {
    if events != [] {
      var before, e := events[..|events| - 1], events[|events| - 1];
      var s := Run(before).value;
      PositiveBefore(s, e);
      BalanceIsReceived(before, user);
      StepBalance(s, e, user);
    }
  }

  // ----------------------------------------- why the demands on edits are there

  /** An edit that resets a used code makes it redeemable again, credited or not. */
  lemma ResetReopens(rs: seq<Redemption>, i: nat, record: Redemption, user: nat, now: int)
    requires DistinctIds(rs) && DistinctKeys(rs) && i < |rs| && user != 0
    requires rs[i].key == Trim(rs[i].key) && rs[i].key != "" && !Expired(rs[i], now)
    requires record.status == ENABLED
    ensures Redeemable(AfterUpdate(rs, rs[i].id, true, record, now), rs[i].key, user, now)
  {
    var after := AfterUpdate(rs, rs[i].id, true, record, now);
    assert IdIndex(rs, rs[i].id) == i;
    assert after == rs[i := rs[i].(status := ENABLED)];
    assert after[i].key == rs[i].key;
    var k := KeyIndex(after, rs[i].key);
    assert after[k].key == rs[k].key;
  }

  /** Ids are reused: after the code with the highest id is deleted, the next
      create call gives its id to the new code. */
  lemma DeletedIdIsReused(rs: seq<Redemption>, r: Redemption, t: Template, key: string)
    requires DistinctIds(rs + [r]) && r.id == MaxId(Ids(rs)) + 1 <= U64_MAX
    ensures Retained(rs + [r], OtherIds(r.id)) == rs
    ensures AfterCreate(rs, t, [key])
         == rs + [Redemption(r.id, key, ENABLED, Trim(t.name), t.quota, 0, 0, t.expiredTime)]
  {
    assert (rs + [r])[..|rs|] == rs;
    forall i | 0 <= i < |rs| ensures rs[i].id != r.id {
      assert (rs + [r])[i].id != (rs + [r])[|rs|].id;
    }
    KeepOthers(rs, r.id);
    assert rs + [] == rs;
    NewCodesShape(t.(name := Trim(t.name)), [key], r.id);
  }

  /** A rollback goes by id and user alone: it re-enables whichever code has the
      id now, so a handler whose code was deleted may undo another redemption. */
  lemma RollbackGoesById(rs: seq<Redemption>, code: Redemption, claim: Claim)
    requires DistinctIds(rs + [code]) && code.status == USED && code.usedUser == claim.user && code.id == claim.id
    ensures AfterRollback(rs + [code], claim.id, claim.user)
         == rs + [code.(status := ENABLED, redeemedTime := 0, usedUser := 0)]
  {
    var all := rs + [code];
    assert all[|rs|].id == claim.id;
    var i := IdIndex(all, claim.id);
    assert i == |rs|;
  }

  lemma {:induction false} KeepOthers(rs: seq<Redemption>, id: nat)
    requires forall i :: 0 <= i < |rs| ==> rs[i].id != id
    ensures Retained(rs, OtherIds(id)) == rs
  {
    if rs != [] { KeepOthers(rs[..|rs| - 1], id); }
  }
}
