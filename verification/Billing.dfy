/** The in-memory billing store: redemption codes and top-ups, kept in two
    vectors behind one lock. */
module Billing {
  import opened Prelude
  import opened Text

  const ENABLED := 1
  const DISABLED := 2
  const USED := 3
  const PENDING := "pending"
  const SUCCESS := "success"

  datatype Redemption = Redemption(id: nat, key: string, status: int, name: string, quota: int,
                                   redeemedTime: int, usedUser: nat, expiredTime: int)

  datatype TopUp = TopUp(id: nat, user: nat, trade: string, status: string, createTime: int, completeTime: int)

  datatype Error = InvalidRequest | NotFound | Duplicate
  datatype Result<+T> = Ok(value: T) | Err(error: Error)

  datatype Redeemed = Redeemed(id: nat, quota: int)
  datatype Completed = Completed(topup: TopUp, quota: int)

  // -------------------------------------------------------------- specification

  function KeyIndex(rs: seq<Redemption>, key: string): nat {
    FirstIndex(rs, (r: Redemption) => r.key == key)
  }

  function IdIndex(rs: seq<Redemption>, id: nat): nat {
    FirstIndex(rs, (r: Redemption) => r.id == id)
  }

  function TradeIndex(ts: seq<TopUp>, trade: string): nat {
    FirstIndex(ts, (t: TopUp) => t.trade == trade)
  }

  predicate Expired(r: Redemption, now: int) {
    r.expiredTime != 0 && r.expiredTime < now
  }

  /** The code a redeem request would use. */
  predicate Redeemable(rs: seq<Redemption>, key: string, user: nat, now: int) {
    var i := KeyIndex(rs, Trim(key));
    Trim(key) != "" && user != 0 && i < |rs| && rs[i].status == ENABLED && !Expired(rs[i], now)
  }

  function MarkUsed(r: Redemption, user: nat, now: int): Redemption {
    r.(status := USED, redeemedTime := now, usedUser := user)
  }

  function AfterRedeem(rs: seq<Redemption>, key: string, user: nat, now: int): seq<Redemption> {
    if !Redeemable(rs, key, user, now) then rs
    else var i := KeyIndex(rs, Trim(key)); rs[i := MarkUsed(rs[i], user, now)]
  }

  predicate Revertible(rs: seq<Redemption>, id: nat, user: nat) {
    var i := IdIndex(rs, id);
    i < |rs| && rs[i].status == USED && rs[i].usedUser == user
  }

  function AfterRollback(rs: seq<Redemption>, id: nat, user: nat): seq<Redemption> {
    if !Revertible(rs, id, user) then rs
    else var i := IdIndex(rs, id); rs[i := rs[i].(status := ENABLED, redeemedTime := 0, usedUser := 0)]
  }

  function Ids(rs: seq<Redemption>): seq<nat> {
    seq(|rs|, i requires 0 <= i < |rs| => rs[i].id)
  }

  function TopUpIds(ts: seq<TopUp>): seq<nat> {
    seq(|ts|, i requires 0 <= i < |ts| => ts[i].id)
  }

  /** What the codes of one create call share. */
  datatype Template = Template(name: string, quota: int, expiredTime: int)

  /** The records pushed by a create call whose first id is `id`. */
  function NewCodes(template: Template, keys: seq<string>, id: nat): seq<Redemption>
    decreases |keys|
  {
    if keys == [] then []
    else [Redemption(id, keys[0], ENABLED, template.name, template.quota, 0, 0, template.expiredTime)]
         + NewCodes(template, keys[1..], SatSucc(id))
  }

  lemma NewCodesNext(rs: seq<Redemption>, t: Template, keys: seq<string>, n: nat, id: nat)
    requires n < |keys|
    ensures rs + NewCodes(t, keys[n..], id)
         == rs + [Redemption(id, keys[n], ENABLED, t.name, t.quota, 0, 0, t.expiredTime)]
            + NewCodes(t, keys[n + 1..], SatSucc(id))
  {
    assert keys[n..][1..] == keys[n + 1..];
  }

  predicate TemplateOk(template: Template, count: nat, now: int) {
    && 1 <= |Trim(template.name)| <= 20 && 1 <= count <= 100 && template.quota > 0
    && !(template.expiredTime != 0 && template.expiredTime < now)
  }

  function AfterCreate(rs: seq<Redemption>, template: Template, keys: seq<string>): seq<Redemption> {
    rs + NewCodes(template.(name := Trim(template.name)), keys, SatSucc(MaxId(Ids(rs))))
  }

  function AfterUpdate(rs: seq<Redemption>, id: nat, statusOnly: bool, r: Redemption, now: int): seq<Redemption> {
    var i := IdIndex(rs, id);
    if i == |rs| then rs
    else if statusOnly then rs[i := rs[i].(status := r.status)]
    else if Expired(r, now) then rs
    else rs[i := rs[i].(name := r.name, quota := r.quota, expiredTime := r.expiredTime)]
  }

  function Retained(rs: seq<Redemption>, keep: Redemption -> bool): seq<Redemption> {
    if rs == [] then []
    else Retained(rs[..|rs| - 1], keep) + if keep(rs[|rs| - 1]) then [rs[|rs| - 1]] else []
  }

  lemma {:induction false} RetainedLength(rs: seq<Redemption>, keep: Redemption -> bool)
    ensures |Retained(rs, keep)| <= |rs|
    ensures |Retained(rs, keep)| == |rs| <==> forall i :: 0 <= i < |rs| ==> keep(rs[i])
  {
    if rs != [] {
      var front := rs[..|rs| - 1];
      RetainedLength(front, keep);
      assert forall i :: 0 <= i < |front| ==> front[i] == rs[i];
    }
  }

  function OtherIds(id: nat): Redemption -> bool {
    (r: Redemption) => r.id != id
  }

  /** Codes that are neither used, disabled nor expired. */
  function StillValid(now: int): Redemption -> bool {
    (r: Redemption) => !(r.status == DISABLED || r.status == USED || (r.status == ENABLED && Expired(r, now)))
  }

  predicate TopUpTaken(ts: seq<TopUp>, t: TopUp) {
    exists i :: 0 <= i < |ts| && (ts[i].trade == t.trade || (ts[i].id == t.id && t.id != 0))
  }

  function NormalTopUp(t: TopUp): TopUp {
    t.(trade := Trim(t.trade), status := if t.status == "" then PENDING else t.status)
  }

  function CreateTopUpResult(ts: seq<TopUp>, t: TopUp, now: int): Result<TopUp> {
    var n := NormalTopUp(t);
    if n.trade == "" || n.user == 0 then Err(InvalidRequest)
    else if TopUpTaken(ts, n) then Err(Duplicate)
    else Ok(n.(id := if n.id == 0 then SatSucc(MaxId(TopUpIds(ts))) else n.id,
               createTime := if n.createTime == 0 then now else n.createTime))
  }

  /** `worth` is the quota the price rules give this top-up, `None` when they
      reject it. */
  function CompleteResult(ts: seq<TopUp>, trade: string, worth: TopUp -> Result<int>, now: int): Result<Completed> {
    var i := TradeIndex(ts, Trim(trade));
    if Trim(trade) == "" then Err(InvalidRequest)
    else if i == |ts| then Err(NotFound)
    else if ts[i].status == SUCCESS then Ok(Completed(ts[i], 0))
    else if ts[i].status != PENDING then Err(InvalidRequest)
    else match worth(ts[i])
      case Err(e) => Err(e)
      case Ok(quota) => Ok(Completed(ts[i].(status := SUCCESS, completeTime := now), quota))
  }

  function AfterComplete(ts: seq<TopUp>, trade: string, worth: TopUp -> Result<int>, now: int): seq<TopUp> {
    var i := TradeIndex(ts, Trim(trade));
    if CompleteResult(ts, trade, worth, now).Ok? && i < |ts| && ts[i].status == PENDING
    then ts[i := CompleteResult(ts, trade, worth, now).value.topup] else ts
  }

  // ------------------------------------------------------------------ the store

  class MemoryBillingStore {
    var redemptions: seq<Redemption>
    var topups: seq<TopUp>

    constructor ()
      ensures redemptions == [] && topups == []
    {
      redemptions, topups := [], [];
    }

    method FindKey(key: string) returns (i: nat)
      ensures i == KeyIndex(redemptions, key)
    {
      i := 0;
      while i < |redemptions| && redemptions[i].key != key
        invariant i <= |redemptions| && forall k :: 0 <= k < i ==> redemptions[k].key != key
      {
        i := i + 1;
      }
      assert i == KeyIndex(redemptions, key);
    }

    method FindId(id: nat) returns (i: nat)
      ensures i == IdIndex(redemptions, id)
    {
      i := 0;
      while i < |redemptions| && redemptions[i].id != id
        invariant i <= |redemptions| && forall k :: 0 <= k < i ==> redemptions[k].id != id
      {
        i := i + 1;
      }
    }

    method FindTrade(trade: string) returns (i: nat)
      ensures i == TradeIndex(topups, trade)
    {
      i := 0;
      while i < |topups| && topups[i].trade != trade
        invariant i <= |topups| && forall k :: 0 <= k < i ==> topups[k].trade != trade
      {
        i := i + 1;
      }
    }

    /** `keys` are the values the unique-key loop settles on: none in the store
        yet, none twice. */
    method Create(template: Template, keys: seq<string>, now: int) returns (r: Result<seq<string>>)
      requires forall i :: 0 <= i < |keys| ==> KeyIndex(redemptions, keys[i]) == |redemptions|
      requires forall i, j :: 0 <= i < j < |keys| ==> keys[i] != keys[j]
      modifies this`redemptions
      ensures r == if TemplateOk(template, |keys|, now) then Ok(keys) else Err(InvalidRequest)
      ensures redemptions == if r.Ok? then AfterCreate(old(redemptions), template, keys) else old(redemptions)
    {
      var name := Trim(template.name);
      if |name| == 0 || |name| > 20 || |keys| == 0 || |keys| > 100
         || (template.expiredTime != 0 && template.expiredTime < now) || template.quota <= 0 {
        return Err(InvalidRequest);
      }
      var next := SatSucc(MaxId(Ids(redemptions)));
      var done := [];
      for n := 0 to |keys|
        invariant redemptions + NewCodes(template.(name := name), keys[n..], next)
                  == old(AfterCreate(redemptions, template, keys))
        invariant done == keys[..n]
      {
        var record := Redemption(next, keys[n], ENABLED, name, template.quota, 0, 0, template.expiredTime);
        NewCodesNext(redemptions, template.(name := name), keys, n, next);
        redemptions := redemptions + [record];
        done := done + [keys[n]];
        next := SatSucc(next);
      }
      assert keys[..|keys|] == keys;
      r := Ok(done);
    }

    method Update(id: nat, statusOnly: bool, record: Redemption, now: int) returns (r: Result<Redemption>)
      modifies this`redemptions
      ensures redemptions == AfterUpdate(old(redemptions), id, statusOnly, record, now)
      ensures r.Ok? <==> IdIndex(old(redemptions), id) < |old(redemptions)| && (statusOnly || !Expired(record, now))
    {
      var i := FindId(id);
      if i == |redemptions| { return Err(NotFound); }
      if statusOnly {
        redemptions := redemptions[i := redemptions[i].(status := record.status)];
        return Ok(redemptions[i]);
      }
      if Expired(record, now) { return Err(InvalidRequest); }
      redemptions := redemptions[i := redemptions[i].(name := record.name, quota := record.quota,
                                                      expiredTime := record.expiredTime)];
      r := Ok(redemptions[i]);
    }

    method Retain(keep: Redemption -> bool)
      modifies this`redemptions
      ensures redemptions == Retained(old(redemptions), keep)
    {
      var before, kept := redemptions, [];
      for n := 0 to |before|
        invariant kept == Retained(before[..n], keep)
      {
        assert before[..n + 1][..n] == before[..n];
        if keep(before[n]) { kept := kept + [before[n]]; }
      }
      assert before[..|before|] == before;
      redemptions := kept;
    }

    method Delete(id: nat) returns (r: Result<()>)
      modifies this`redemptions
      ensures redemptions == Retained(old(redemptions), OtherIds(id))
      ensures r.Ok? <==> IdIndex(old(redemptions), id) < |old(redemptions)|
    {
      var before := |redemptions|;
      RetainedLength(redemptions, OtherIds(id));
      Retain(OtherIds(id));
      r := if before == |redemptions| then Err(NotFound) else Ok(());
    }

    method DeleteInvalid(now: int) returns (removed: int)
      modifies this`redemptions
      ensures redemptions == Retained(old(redemptions), StillValid(now))
      ensures removed == |old(redemptions)| - |redemptions| && removed >= 0
    {
      var before := |redemptions|;
      RetainedLength(redemptions, StillValid(now));
      Retain(StillValid(now));
      removed := before - |redemptions|;
    }

    /** Marks the code used for this user, or refuses and changes nothing. */
    method Redeem(key: string, user: nat, now: int) returns (r: Result<Redeemed>)
      modifies this`redemptions
      ensures r.Ok? <==> Redeemable(old(redemptions), key, user, now)
      ensures redemptions == AfterRedeem(old(redemptions), key, user, now)
      ensures r.Ok? ==> var code := old(redemptions)[KeyIndex(old(redemptions), Trim(key))];
                        r.value == Redeemed(code.id, code.quota)
    {
      var trimmed := Trim(key);
      if trimmed == "" || user == 0 { return Err(InvalidRequest); }
      var i := FindKey(trimmed);
      if i == |redemptions| || redemptions[i].status != ENABLED || Expired(redemptions[i], now) {
        return Err(InvalidRequest);
      }
      redemptions := redemptions[i := MarkUsed(redemptions[i], user, now)];
      r := Ok(Redeemed(redemptions[i].id, redemptions[i].quota));
    }

    /** Re-enables the code with this id if this user is recorded on it. */
    method Rollback(id: nat, user: nat) returns (r: Result<()>)
      modifies this`redemptions
      ensures r.Ok? <==> IdIndex(old(redemptions), id) < |old(redemptions)|
      ensures redemptions == AfterRollback(old(redemptions), id, user)
    {
      var i := FindId(id);
      if i == |redemptions| { return Err(NotFound); }
      if redemptions[i].status == USED && redemptions[i].usedUser == user {
        redemptions := redemptions[i := redemptions[i].(status := ENABLED, redeemedTime := 0, usedUser := 0)];
      }
      r := Ok(());
    }

    method CreateTopUp(topup: TopUp, now: int) returns (r: Result<TopUp>)
      modifies this`topups
      ensures r == CreateTopUpResult(old(topups), topup, now)
      ensures topups == if r.Ok? then old(topups) + [r.value] else old(topups)
    {
      var t := NormalTopUp(topup);
      if t.trade == "" || t.user == 0 { return Err(InvalidRequest); }
      for n := 0 to |topups|
        invariant forall i :: 0 <= i < n ==> !(topups[i].trade == t.trade || (topups[i].id == t.id && t.id != 0))
      {
        if topups[n].trade == t.trade || (topups[n].id == t.id && t.id != 0) { return Err(Duplicate); }
      }
      t := t.(id := if t.id == 0 then SatSucc(MaxId(TopUpIds(topups))) else t.id,
              createTime := if t.createTime == 0 then now else t.createTime);
      topups := topups + [t];
      r := Ok(t);
    }

    /** Completes a pending top-up once; completing again yields nothing more. */
    method Complete(trade: string, worth: TopUp -> Result<int>, now: int) returns (r: Result<Completed>)
      modifies this`topups
      ensures r == CompleteResult(old(topups), trade, worth, now)
      ensures topups == AfterComplete(old(topups), trade, worth, now)
    {
      var trimmed := Trim(trade);
      if trimmed == "" { return Err(InvalidRequest); }
      var i := FindTrade(trimmed);
      if i == |topups| { return Err(NotFound); }
      if topups[i].status == SUCCESS { return Ok(Completed(topups[i], 0)); }
      if topups[i].status != PENDING { return Err(InvalidRequest); }
      match worth(topups[i])
      case Err(e) => r := Err(e);
      case Ok(quota) =>
        topups := topups[i := topups[i].(status := SUCCESS, completeTime := now)];
        r := Ok(Completed(topups[i], quota));
    }
  }
}
