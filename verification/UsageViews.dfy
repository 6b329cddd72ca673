/** The usage views: quota data grouped by hour, and token rankings by model and
    vendor. */
module UsageViews {
  import opened Prelude
  import opened Calendar
  import opened Grouping

  datatype Usage = Usage(user: string, model: string, createdMs: int, success: bool, tokens: nat, quota: Option<int>)

  function QuotaValue(e: Usage): int {
    match e.quota
    case Some(q) => q
    case None => if e.tokens > I64_MAX then I64_MAX else e.tokens
  }

  function Weight(e: Usage): Sum {
    Sum(1, e.tokens, QuotaValue(e))
  }

  function Second(e: Usage): int {
    TruncDiv(e.createdMs, 1000)
  }

  // ----------------------------------------------------------------- quota data

  datatype Breakdown = ByModel | ByUser | ByUserModel

  /** Empty or zero fields do not filter. */
  datatype Query = Query(userId: Option<string>, start: int, end: int, username: string)

  datatype Key = Key(user: string, username: string, model: string, hour: int)

  function NameOf(names: map<string, string>, user: string): string {
    if user in names then names[user] else user
  }

  predicate Selected(q: Query, names: map<string, string>, e: Usage) {
    && !(q.userId.Some? && e.user != q.userId.value)
    && !(q.start != 0 && Second(e) < q.start)
    && !(q.end != 0 && Second(e) > q.end)
    && !(q.username != "" && NameOf(names, e.user) != q.username)
  }

  function Hour(e: Usage): int {
    Second(e) - Second(e) % 3600
  }

  function KeyOf(view: Breakdown, q: Query, names: map<string, string>, e: Usage): Option<Key> {
    if !Selected(q, names, e) then None
    else match view
      case ByModel => Some(Key("", "", e.model, Hour(e)))
      case ByUser => Some(Key(e.user, NameOf(names, e.user), "", Hour(e)))
      case ByUserModel => Some(Key(e.user, NameOf(names, e.user), e.model, Hour(e)))
  }

  function KeyFn(view: Breakdown, q: Query, names: map<string, string>): Usage -> Option<Key> {
    (e: Usage) => KeyOf(view, q, names, e)
  }

  function Saturated(s: Sum): Sum {
    Sum(if s.count > U64_MAX then U64_MAX else s.count,
        if s.tokens > U64_MAX then U64_MAX else s.tokens,
        if s.quota > I64_MAX then I64_MAX else if s.quota < I64_MIN then I64_MIN else s.quota)
  }

  /** An upper bound on every partial sum. */
  function Mass(events: seq<Usage>): Sum {
    if events == [] then ZERO
    else
      var e := events[|events| - 1];
      Plus(Mass(events[..|events| - 1]), Sum(1, e.tokens, if QuotaValue(e) < 0 then -QuotaValue(e) else QuotaValue(e)))
  }

  predicate Within(s: Sum, bound: Sum) {
    0 <= s.count <= bound.count && 0 <= s.tokens <= bound.tokens && -bound.quota <= s.quota <= bound.quota
  }

  predicate Fits(events: seq<Usage>) {
    Mass(events).count <= U64_MAX && Mass(events).tokens <= U64_MAX && Mass(events).quota <= I64_MAX
  }

  lemma {:induction false} GroupsWithin(events: seq<Usage>, key: Usage -> Option<Key>, k: Key)
    ensures Within(if k in Grouped(events, key, Weight) then Grouped(events, key, Weight)[k] else ZERO, Mass(events))
  {
    if events != [] { GroupsWithin(events[..|events| - 1], key, k); }
  }

  lemma {:induction false} MassGrows(events: seq<Usage>, n: nat)
    requires n <= |events|
    ensures Within(Mass(events[..n]), Mass(events))
  {
    if n < |events| {
      MassGrows(events[..|events| - 1], n);
      assert events[..|events| - 1][..n] == events[..n];
    } else {
      assert events[..n] == events;
      MassPositive(events);
    }
  }

  lemma {:induction false} MassPositive(events: seq<Usage>)
    ensures Within(ZERO, Mass(events))
  {
    if events != [] { MassPositive(events[..|events| - 1]); }
  }

  function CapU64(n: int): int {
    if n > U64_MAX then U64_MAX else n
  }

  function CapI64(n: int): int {
    if n > I64_MAX then I64_MAX else if n < I64_MIN then I64_MIN else n
  }

  /** The quotas of a group, added up in order by saturating addition. */
  function QuotaFold(events: seq<Usage>, key: Usage -> Option<Key>, k: Key): int {
    if events == [] then 0
    else
      var before, e := QuotaFold(events[..|events| - 1], key, k), events[|events| - 1];
      if key(e) == Some(k) then CapI64(before + QuotaValue(e)) else before
  }

  /** What the saturating loop holds of a group: count and tokens are the totals,
      capped. */
  function Shown(events: seq<Usage>, key: Usage -> Option<Key>, k: Key): Sum {
    var total := At(Grouped(events, key, Weight), k);
    Sum(CapU64(total.count), CapU64(total.tokens), QuotaFold(events, key, k))
  }

  ghost predicate Saturates(groups: map<Key, Sum>, events: seq<Usage>, key: Usage -> Option<Key>) {
    && groups.Keys == Grouped(events, key, Weight).Keys
    && forall k :: k in groups ==> groups[k] == Shown(events, key, k)
  }

  lemma GroupedNext(events: seq<Usage>, key: Usage -> Option<Key>, n: nat)
    requires n < |events|
    ensures Grouped(events[..n + 1], key, Weight)
         == Added(Grouped(events[..n], key, Weight), key(events[n]), Weight(events[n]))
    ensures forall k :: QuotaFold(events[..n + 1], key, k)
              == var before := QuotaFold(events[..n], key, k);
                 if key(events[n]) == Some(k) then CapI64(before + QuotaValue(events[n])) else before
  {
    assert events[..n + 1][..n] == events[..n];
  }

  lemma NotInGroup(events: seq<Usage>, key: Usage -> Option<Key>, k: Key)
    requires k !in Grouped(events, key, Weight)
    ensures QuotaFold(events, key, k) == 0
  {
    if events != [] { NotInGroup(events[..|events| - 1], key, k); }
  }

  /** One saturating addition carries the capped totals on. */
  lemma ShownNext(events: seq<Usage>, key: Usage -> Option<Key>, n: nat, k: Key)
    requires n < |events|
    ensures Shown(events[..n + 1], key, k)
         == if key(events[n]) == Some(k) then Saturated(Plus(Shown(events[..n], key, k), Weight(events[n])))
            else Shown(events[..n], key, k)
  {
    GroupedNext(events, key, n);
    GroupsWithin(events[..n], key, k);
  }

  lemma NoneShown(events: seq<Usage>, key: Usage -> Option<Key>, k: Key)
    requires k !in Grouped(events, key, Weight)
    ensures Shown(events, key, k) == ZERO
  {
    NotInGroup(events, key, k);
  }

  lemma SaturatesNext(groups: map<Key, Sum>, events: seq<Usage>, key: Usage -> Option<Key>, n: nat)
    requires n < |events| && Saturates(groups, events[..n], key)
    ensures var k := key(events[n]);
            Saturates(if k.None? then groups
                      else groups[k.value := Saturated(Plus(At(groups, k.value), Weight(events[n])))],
                      events[..n + 1], key)
  {
    GroupedNext(events, key, n);
    forall k ensures Shown(events[..n + 1], key, k)
                  == if key(events[n]) == Some(k) then Saturated(Plus(Shown(events[..n], key, k), Weight(events[n])))
                     else Shown(events[..n], key, k)
    {
      ShownNext(events, key, n, k);
    }
    if key(events[n]).Some? && key(events[n]).value !in groups {
      NoneShown(events[..n], key, key(events[n]).value);
    }
  }

  /** The saturating loop: every group's count and tokens are its totals, capped at
      the 64-bit limit, and its quota is the saturating sum in order. When nothing
      can saturate, all three are the plain totals. */
  method QuotaDataRecords(events: seq<Usage>, view: Breakdown, q: Query, names: map<string, string>)
    returns (groups: map<Key, Sum>)
    ensures Saturates(groups, events, KeyFn(view, q, names))
    ensures Fits(events) ==> groups == Grouped(events, KeyFn(view, q, names), Weight)
  {
    groups := map[];
    ghost var key := KeyFn(view, q, names);
    for n := 0 to |events|
      invariant Saturates(groups, events[..n], key)
    {
      SaturatesNext(groups, events, key, n);
      var e := events[n];
      var k := KeyOf(view, q, names, e);
      if k.Some? {
        var record := if k.value in groups then groups[k.value] else ZERO;
        groups := groups[k.value := Saturated(Plus(record, Weight(e)))];
      }
    }
    assert events[..|events|] == events;
    if Fits(events) { PlainWhenFits(groups, events, key); }
  }

  lemma {:induction false} QuotaPlain(events: seq<Usage>, key: Usage -> Option<Key>, k: Key)
    requires Mass(events).quota <= I64_MAX
    ensures QuotaFold(events, key, k) == At(Grouped(events, key, Weight), k).quota
  {
    if events != [] {
      MassGrows(events, |events| - 1);
      QuotaPlain(events[..|events| - 1], key, k);
      GroupsWithin(events, key, k);
    }
  }

  /** When no quota is negative, the quota too is the total, capped. */
  lemma {:induction false} QuotaCapped(events: seq<Usage>, key: Usage -> Option<Key>, k: Key)
    requires forall i :: 0 <= i < |events| ==> QuotaValue(events[i]) >= 0
    ensures var total := At(Grouped(events, key, Weight), k).quota;
            total >= 0 && QuotaFold(events, key, k) == CapI64(total)
  {
    if events != [] { QuotaCapped(events[..|events| - 1], key, k); }
  }

  lemma PlainWhenFits(groups: map<Key, Sum>, events: seq<Usage>, key: Usage -> Option<Key>)
    requires Saturates(groups, events, key) && Fits(events)
    ensures groups == Grouped(events, key, Weight)
  {
    forall k | k in groups ensures groups[k] == Grouped(events, key, Weight)[k] {
      QuotaPlain(events, key, k);
      GroupsWithin(events, key, k);
    }
  }

  // ------------------------------------------- conservation and coarser groups

  function SelectedFn(q: Query, names: map<string, string>): Usage -> Option<()> {
    (e: Usage) => if Selected(q, names, e) then Some(()) else None
  }

  /** Whatever the breakdown, the groups together hold the count, tokens and quota
      of the selected events, no more and no less. */
  lemma GroupsConserve(events: seq<Usage>, view: Breakdown, q: Query, names: map<string, string>)
    ensures var m := Grouped(events, KeyFn(view, q, names), Weight);
            SumOver(m, m.Keys) == TotalIn(events, SelectedFn(q, names), Weight, {()})
  {
    var key := KeyFn(view, q, names);
    var m := Grouped(events, key, Weight);
    SumOverIsTotal(events, key, Weight, m.Keys);
    forall i | 0 <= i < |events| && key(events[i]).Some? ensures key(events[i]).value in m {
      ItemHasGroup(events, key, Weight, i);
    }
    SameTotal(events, Weight, key, m.Keys, SelectedFn(q, names), {()});
  }

  function ToModel(k: Key): Key {
    Key("", "", k.model, k.hour)
  }

  function ToUser(k: Key): Key {
    Key(k.user, k.username, "", k.hour)
  }

  /** The model and the user breakdown are roll-ups of the joint one. */
  lemma BreakdownsAgree(events: seq<Usage>, q: Query, names: map<string, string>, c: Key)
    ensures var joint := Grouped(events, KeyFn(ByUserModel, q, names), Weight);
            var byModel := Grouped(events, KeyFn(ByModel, q, names), Weight);
            var byUser := Grouped(events, KeyFn(ByUser, q, names), Weight);
            && (c in byModel ==> byModel[c] == SumOver(joint, Under(joint, ToModel, c)))
            && (c in byUser ==> byUser[c] == SumOver(joint, Under(joint, ToUser, c)))
            && (c !in byModel ==> Under(joint, ToModel, c) == {})
            && (c !in byUser ==> Under(joint, ToUser, c) == {})
  {
    CoarserGroup(events, Weight, KeyFn(ByUserModel, q, names), ToModel, KeyFn(ByModel, q, names), c);
    CoarserGroup(events, Weight, KeyFn(ByUserModel, q, names), ToUser, KeyFn(ByUser, q, names), c);
  }

  /** Which events a query counts, and under which key: the full hour that holds the
      event's second, and of user and model what the breakdown asks for. */
  lemma KeyExact(view: Breakdown, q: Query, names: map<string, string>, e: Usage)
    ensures var second := if e.createdMs >= 0 then e.createdMs / 1000 else -(-e.createdMs / 1000);
            var shown := if e.user in names then names[e.user] else e.user;
            var k := KeyOf(view, q, names, e);
            && (k.Some? <==>
                  && (q.userId.None? || q.userId.value == e.user)
                  && (q.start == 0 || q.start <= second) && (q.end == 0 || second <= q.end)
                  && (q.username == "" || q.username == shown))
            && (k.Some? ==>
                  && k.value.hour % 3600 == 0 && k.value.hour <= second < k.value.hour + 3600
                  && k.value.model == (if view == ByUser then "" else e.model)
                  && k.value.user == (if view == ByModel then "" else e.user)
                  && k.value.username == (if view == ByModel then "" else shown))
  {
    HourExact(Second(e));
  }

  lemma HourExact(second: int)
    ensures var hour := second - second % 3600;
            hour % 3600 == 0 && hour <= second < hour + 3600
  {
  }

  /** An event counts once, with its tokens and its quota; without a settled quota
      with its tokens as far as they fit. */
  lemma WeightExact(e: Usage)
    ensures var w := Weight(e);
            && w.count == 1 && w.tokens == e.tokens
            && w.quota == (if e.quota.Some? then e.quota.value
                           else if e.tokens <= 0x7FFF_FFFF_FFFF_FFFF then e.tokens else 0x7FFF_FFFF_FFFF_FFFF)
  {
  }

  // ------------------------------------------------------------------- rankings

  function Tokens(e: Usage): Sum {
    Sum(0, e.tokens, 0)
  }

  predicate Counted(e: Usage, start: int, end: int) {
    e.success && start <= Second(e) <= end && e.model != ""
  }

  /** The totals loop passes over events without tokens. */
  function ModelKey(start: int, end: int): Usage -> Option<string> {
    (e: Usage) => if Counted(e, start, end) && e.tokens > 0 then Some(e.model) else None
  }

  datatype Slot = Slot(model: string, bucket: int)

  function BucketKey(start: int, end: int, size: int): Usage -> Option<Slot> {
    (e: Usage) => if Counted(e, start, end) then Some(Slot(e.model, BucketOf(e, size))) else None
  }

  function BucketOf(e: Usage, size: int): int {
    Second(e) - Second(e) % (if size > 1 then size else 1)
  }

  /** Which events a ranking counts, and in which bucket: the multiple of the width
      at or before the event's second; the totals pass over events without tokens. */
  lemma RankingKeysExact(e: Usage, start: int, end: int, size: int)
    ensures var second := if e.createdMs >= 0 then e.createdMs / 1000 else -(-e.createdMs / 1000);
            var counted := e.success && start <= second && second <= end && e.model != "";
            var width := if size > 1 then size else 1;
            var total, slot := ModelKey(start, end)(e), BucketKey(start, end, size)(e);
            && total == (if counted && e.tokens > 0 then Some(e.model) else None)
            && (slot.Some? <==> counted)
            && (counted ==> slot.value.model == e.model && slot.value.bucket % width == 0
                            && slot.value.bucket <= second < slot.value.bucket + width)
  {
    BucketStart(Second(e), if size > 1 then size else 1);
  }

  lemma BucketStart(second: int, width: int)
    requires width > 0
    ensures var start := second - second % width;
            start % width == 0 && start <= second < start + width
  {
    var q := second / width;
    assert second - second % width == q * width;
    MultipleOf(q, width);
  }

  lemma MultipleOf(q: int, width: int)
    requires width > 0
    ensures (q * width) % width == 0
  {
    var r := (q * width) % width;
    var p := (q * width) / width;
    assert q * width == p * width + r;
    assert (q - p) * width == r;
    assert q - p >= 1 ==> (q - p) * width >= width;
    assert q - p <= -1 ==> (q - p) * width <= -width;
  }

  // The rankings add tokens up in 64-bit words.

  method UsageTotals(events: seq<Usage>, start: int, end: int) returns (totals: map<string, Sum>)
    ensures totals == WrappedAll(Grouped(events, ModelKey(start, end), Tokens))
  {
    totals := map[];
    for n := 0 to |events|
      invariant totals == WrappedAll(Grouped(events[..n], ModelKey(start, end), Tokens))
    {
      var e := events[n];
      assert events[..n + 1][..n] == events[..n];
      if e.success && start <= Second(e) <= end && e.model != "" && e.tokens > 0 {
        AddedWraps(Grouped(events[..n], ModelKey(start, end), Tokens), e.model, Tokens(e));
        totals := totals[e.model := Wrapped(Plus(At(totals, e.model), Tokens(e)))];
      }
    }
    assert events[..|events|] == events;
  }

  method UsageBuckets(events: seq<Usage>, start: int, end: int, size: int) returns (buckets: map<Slot, Sum>)
    ensures buckets == WrappedAll(Grouped(events, BucketKey(start, end, size), Tokens))
  {
    buckets := map[];
    for n := 0 to |events|
      invariant buckets == WrappedAll(Grouped(events[..n], BucketKey(start, end, size), Tokens))
    {
      var e := events[n];
      assert events[..n + 1][..n] == events[..n];
      if e.success && start <= Second(e) <= end && e.model != "" {
        var slot := Slot(e.model, BucketOf(e, size));
        AddedWraps(Grouped(events[..n], BucketKey(start, end, size), Tokens), slot, Tokens(e));
        buckets := buckets[slot := Wrapped(Plus(At(buckets, slot), Tokens(e)))];
      }
    }
    assert events[..|events|] == events;
  }

  function TokenMass(events: seq<Usage>): nat {
    if events == [] then 0 else TokenMass(events[..|events| - 1]) + events[|events| - 1].tokens
  }

  lemma {:induction false} TokensWithin<K>(events: seq<Usage>, key: Usage -> Option<K>, k: K)
    ensures 0 <= At(Grouped(events, key, Tokens), k).tokens <= TokenMass(events)
  {
    if events != [] { TokensWithin(events[..|events| - 1], key, k); }
  }

  /** Nothing wraps when all the tokens together fit a word. */
  lemma NothingWraps<K>(events: seq<Usage>, key: Usage -> Option<K>)
    requires TokenMass(events) <= U64_MAX
    ensures WrappedAll(Grouped(events, key, Tokens)) == Grouped(events, key, Tokens)
  {
    var m := Grouped(events, key, Tokens);
    forall k | k in m ensures Wrapped(m[k]) == m[k] {
      TokensWithin(events, key, k);
      assert At(m, k) == m[k];
    }
  }

  function SlotModel(s: Slot): string {
    s.model
  }

  lemma PlainBuckets(events: seq<Usage>, start: int, end: int, size: int, model: string)
    ensures var buckets := Grouped(events, BucketKey(start, end, size), Tokens);
            SumOver(buckets, Under(buckets, SlotModel, model))
            == At(Grouped(events, ModelKey(start, end), Tokens), model)
  {
    var key := BucketKey(start, end, size);
    var buckets := Grouped(events, key, Tokens);
    var part := Under(buckets, SlotModel, model);
    SumOverIsTotal(events, key, Tokens, part);
    GroupedAt(events, ModelKey(start, end), Tokens, model);
    forall i | 0 <= i < |events| && key(events[i]).Some? ensures key(events[i]).value in buckets {
      ItemHasGroup(events, key, Tokens, i);
    }
    SameTotal(events, Tokens, key, part, ModelKey(start, end), {model});
  }

  /** Adding up a model's buckets in words, whatever their width and whatever wraps,
      gives the model's total; a model without a total has buckets that add up to
      nothing. */
  lemma BucketsSumToTotals(events: seq<Usage>, start: int, end: int, size: int, model: string)
    ensures var buckets := WrappedAll(Grouped(events, BucketKey(start, end, size), Tokens));
            var totals := WrappedAll(Grouped(events, ModelKey(start, end), Tokens));
            Wrapped(SumOver(buckets, Under(buckets, SlotModel, model))) == At(totals, model)
  {
    var buckets := Grouped(events, BucketKey(start, end, size), Tokens);
    WrapUnder(buckets, SlotModel, model);
    WrappedAt(Grouped(events, ModelKey(start, end), Tokens), model);
    PlainBuckets(events, start, end, size, model);
  }

  function SlotVendor(vendor: string -> string): Slot -> string {
    (s: Slot) => vendor(s.model)
  }

  lemma PlainVendors(events: seq<Usage>, start: int, end: int, size: int, vendor: string -> string, v: string)
    ensures var buckets := Grouped(events, BucketKey(start, end, size), Tokens);
            var totals := Grouped(events, ModelKey(start, end), Tokens);
            SumOver(buckets, Under(buckets, SlotVendor(vendor), v)) == SumOver(totals, Under(totals, vendor, v))
  {
    var slot, model := BucketKey(start, end, size), ModelKey(start, end);
    var buckets, totals := Grouped(events, slot, Tokens), Grouped(events, model, Tokens);
    var slots, models := Under(buckets, SlotVendor(vendor), v), Under(totals, vendor, v);
    SumOverIsTotal(events, slot, Tokens, slots);
    SumOverIsTotal(events, model, Tokens, models);
    forall i | 0 <= i < |events| && slot(events[i]).Some? ensures slot(events[i]).value in buckets {
      ItemHasGroup(events, slot, Tokens, i);
    }
    forall i | 0 <= i < |events| && model(events[i]).Some? ensures model(events[i]).value in totals {
      ItemHasGroup(events, model, Tokens, i);
    }
    SameTotal(events, Tokens, slot, slots, model, models);
  }

  /** A vendor's total in words is the same from the model totals as from the
      buckets, whatever wraps. */
  lemma VendorTotalsAgree(events: seq<Usage>, start: int, end: int, size: int, vendor: string -> string, v: string)
    ensures var buckets := WrappedAll(Grouped(events, BucketKey(start, end, size), Tokens));
            var totals := WrappedAll(Grouped(events, ModelKey(start, end), Tokens));
            Wrapped(SumOver(buckets, Under(buckets, SlotVendor(vendor), v)))
            == Wrapped(SumOver(totals, Under(totals, vendor, v)))
  {
    var buckets := Grouped(events, BucketKey(start, end, size), Tokens);
    var totals := Grouped(events, ModelKey(start, end), Tokens);
    WrapUnder(buckets, SlotVendor(vendor), v);
    WrapUnder(totals, vendor, v);
    PlainVendors(events, start, end, size, vendor, v);
  }
}
