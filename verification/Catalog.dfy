/** Enrichment of catalog models with the channels that serve them. */
module Catalog {
  import opened Text
  import opened OrderedSets

  const STATUS_ENABLED := 1
  const NAME_RULE_EXACT := 0
  const NAME_RULE_PREFIX := 1
  const NAME_RULE_CONTAINS := 2
  const NAME_RULE_SUFFIX := 3

  /** `models` is the channel's model list, split and cleaned up. */
  datatype Channel = Channel(name: string, kind: int, status: int, models: seq<string>)

  datatype Bound = Bound(name: string, kind: int)

  datatype Model = Model(name: string, rule: int, bound: seq<Bound>, groups: seq<string>, quotaTypes: seq<int>,
                         matched: seq<string>, matchedCount: nat)

  // ------------------------------------------------------------------- orders

  predicate BoundLess(a: Bound, b: Bound) {
    Less(a.name, b.name) || (a.name == b.name && a.kind < b.kind)
  }

  lemma NamesOrdered()
    ensures TotalOrder(Less)
  {
    forall a, b ensures (Less(a, b) ==> !Less(b, a) && a != b) && (a != b ==> Less(a, b) || Less(b, a)) {
      LessTotal(a, b);
    }
    forall a, b, c | Less(a, b) && Less(b, c) ensures Less(a, c) { LessTransitive(a, b, c); }
  }

  lemma BoundsOrdered()
    ensures TotalOrder(BoundLess)
  {
    forall a, b
      ensures (BoundLess(a, b) ==> !BoundLess(b, a) && a != b) && (a != b ==> BoundLess(a, b) || BoundLess(b, a))
    {
      LessTotal(a.name, b.name);
    }
    forall a, b, c | BoundLess(a, b) && BoundLess(b, c) ensures BoundLess(a, c) {
      if Less(a.name, b.name) && Less(b.name, c.name) { LessTransitive(a.name, b.name, c.name); }
    }
  }

  // ------------------------------------------------------------- the lookups

  predicate Serves(c: Channel, model: string) {
    c.status == STATUS_ENABLED && model in c.models
  }

  function Serving(model: string, channels: seq<Channel>): seq<Bound> {
    if channels == [] then []
    else Serving(model, channels[..|channels| - 1])
         + if Serves(channels[|channels| - 1], model)
           then [Bound(channels[|channels| - 1].name, channels[|channels| - 1].kind)] else []
  }

  function ChannelsForModel(model: string, channels: seq<Channel>): seq<Bound> {
    SortedSet(Serving(model, channels), BoundLess)
  }

  function ListedNames(channels: seq<Channel>): seq<string> {
    if channels == [] then []
    else ListedNames(channels[..|channels| - 1])
         + if channels[|channels| - 1].status == STATUS_ENABLED then channels[|channels| - 1].models else []
  }

  /** `mapped` are the requested names of the model mappings. */
  function EnabledModelNames(channels: seq<Channel>, mapped: seq<string>): seq<string> {
    SortedSet(ListedNames(channels) + mapped, Less)
  }

  predicate RuleMatches(rule: int, pattern: string, model: string) {
    if rule == NAME_RULE_PREFIX then StartsWith(model, pattern)
    else if rule == NAME_RULE_CONTAINS then Contains(model, pattern)
    else if rule == NAME_RULE_SUFFIX then EndsWith(model, pattern)
    else model == pattern
  }

  function Matches(rule: int, pattern: string, names: seq<string>): seq<string> {
    if names == [] then []
    else Matches(rule, pattern, names[..|names| - 1])
         + if RuleMatches(rule, pattern, names[|names| - 1]) then [names[|names| - 1]] else []
  }

  function Gathered(names: seq<string>, channels: seq<Channel>): seq<Bound> {
    if names == [] then []
    else Gathered(names[..|names| - 1], channels) + ChannelsForModel(names[|names| - 1], channels)
  }

  function Filled(m: Model, bound: seq<Bound>): Model {
    m.(bound := bound,
       groups := if bound == [] then [] else ["default"],
       quotaTypes := if bound == [] then m.quotaTypes else [0])
  }

  /** One model after enrichment. */
  function Enriched(m: Model, channels: seq<Channel>, mapped: seq<string>): Model {
    if m.rule == NAME_RULE_EXACT then Filled(m, ChannelsForModel(m.name, channels))
    else
      var matched := Matches(m.rule, m.name, EnabledModelNames(channels, mapped));
      Filled(m.(matched := matched, matchedCount := |matched|),
             SortedSet(Gathered(matched, channels), BoundLess))
  }

  // ----------------------------------------------------- what the lookups mean

  /** Some enabled channel shown as `b` serves this model. */
  predicate BoundServes(channels: seq<Channel>, model: string, b: Bound) {
    exists i :: 0 <= i < |channels| && Serves(channels[i], model) && Bound(channels[i].name, channels[i].kind) == b
  }

  lemma {:induction false} ServingMembers(model: string, channels: seq<Channel>, b: Bound)
    ensures b in Serving(model, channels) <==> BoundServes(channels, model, b)
  {
    if channels != [] {
      var front := channels[..|channels| - 1];
      ServingMembers(model, front, b);
      if BoundServes(front, model, b) {
        var i :| 0 <= i < |front| && Serves(front[i], model) && Bound(front[i].name, front[i].kind) == b;
        assert Serves(channels[i], model);
      }
      if BoundServes(channels, model, b) {
        var i :| 0 <= i < |channels| && Serves(channels[i], model) && Bound(channels[i].name, channels[i].kind) == b;
        if i < |front| {
          assert Serves(front[i], model);
          assert BoundServes(front, model, b);
        }
      }
    }
  }

  /** A model's channels: strictly sorted, exactly the enabled ones serving it. */
  lemma ChannelsExact(model: string, channels: seq<Channel>)
    ensures Strict(ChannelsForModel(model, channels), BoundLess)
    ensures forall b :: b in ChannelsForModel(model, channels) <==> BoundServes(channels, model, b)
  {
    BoundsOrdered();
    SortedSetExact(Serving(model, channels), BoundLess);
    forall b ensures b in ChannelsForModel(model, channels) <==> BoundServes(channels, model, b) {
      ServingMembers(model, channels, b);
    }
  }

  lemma {:induction false} ListedMember(channels: seq<Channel>, i: nat, model: string)
    requires i < |channels| && Serves(channels[i], model)
    ensures model in ListedNames(channels)
  {
    if i < |channels| - 1 {
      assert channels[..|channels| - 1][i] == channels[i];
      ListedMember(channels[..|channels| - 1], i, model);
    }
  }

  lemma NamesListed(channels: seq<Channel>, mapped: seq<string>, i: nat, model: string)
    requires i < |channels| && Serves(channels[i], model)
    ensures model in EnabledModelNames(channels, mapped)
  {
    ListedMember(channels, i, model);
    NamesOrdered();
    SortedSetExact(ListedNames(channels) + mapped, Less);
  }

  /** The cache that enrichment builds: an entry for every enabled model name. */
  function Cache(channels: seq<Channel>, mapped: seq<string>): map<string, seq<Bound>> {
    map name | name in EnabledModelNames(channels, mapped) :: ChannelsForModel(name, channels)
  }

  function Cached(cache: map<string, seq<Bound>>, name: string): seq<Bound> {
    if name in cache then cache[name] else []
  }

  /** Looking a name up in the cache, with nothing as the default, is computing
      its channels: also for the names that were never cached. */
  lemma CacheExact(channels: seq<Channel>, mapped: seq<string>, name: string)
    ensures Cached(Cache(channels, mapped), name) == ChannelsForModel(name, channels)
  {
    if name !in Cache(channels, mapped) {
      ChannelsExact(name, channels);
      var out := ChannelsForModel(name, channels);
      forall i | 0 <= i < |channels| ensures !Serves(channels[i], name) {
        if Serves(channels[i], name) { NamesListed(channels, mapped, i, name); }
      }
      assert |out| > 0 ==> BoundServes(channels, name, out[0]);
    }
  }

  // ------------------------------------------------------- rule-based models

  lemma {:induction false} MatchesMembers(rule: int, pattern: string, names: seq<string>, x: string)
    ensures x in Matches(rule, pattern, names) <==> x in names && RuleMatches(rule, pattern, x)
  {
    if names != [] {
      var front := names[..|names| - 1];
      MatchesMembers(rule, pattern, front, x);
      assert names == front + [names[|names| - 1]];
    }
  }

  predicate NamesServe(channels: seq<Channel>, names: seq<string>, b: Bound) {
    exists i :: 0 <= i < |names| && BoundServes(channels, names[i], b)
  }

  lemma NamesServePush(channels: seq<Channel>, front: seq<string>, last: string, b: Bound)
    ensures NamesServe(channels, front + [last], b)
       <==> NamesServe(channels, front, b) || BoundServes(channels, last, b)
  {
    var names := front + [last];
    if NamesServe(channels, front, b) {
      var i :| 0 <= i < |front| && BoundServes(channels, front[i], b);
      assert names[i] == front[i];
    }
    if BoundServes(channels, last, b) { assert names[|front|] == last; }
    if NamesServe(channels, names, b) {
      var i :| 0 <= i < |names| && BoundServes(channels, names[i], b);
      if i < |front| { assert names[i] == front[i]; }
    }
  }

  lemma ChannelsMember(model: string, channels: seq<Channel>, b: Bound)
    ensures b in ChannelsForModel(model, channels) <==> BoundServes(channels, model, b)
  {
    ChannelsExact(model, channels);
  }

  lemma {:induction false} GatheredMembers(names: seq<string>, channels: seq<Channel>, b: Bound)
    ensures b in Gathered(names, channels) <==> NamesServe(channels, names, b)
  {
    if names != [] {
      var front, last := names[..|names| - 1], names[|names| - 1];
      GatheredMembers(front, channels, b);
      ChannelsMember(last, channels, b);
      NamesServePush(channels, front, last, b);
      assert names == front + [last];
    }
  }

  /** Some model that the rule matches is served by an enabled channel shown as `b`. */
  ghost predicate RuleServes(channels: seq<Channel>, rule: int, pattern: string, b: Bound) {
    exists model :: RuleMatches(rule, pattern, model) && BoundServes(channels, model, b)
  }

  lemma MatchesServe(channels: seq<Channel>, mapped: seq<string>, rule: int, pattern: string, b: Bound)
    ensures NamesServe(channels, Matches(rule, pattern, EnabledModelNames(channels, mapped)), b)
       <==> RuleServes(channels, rule, pattern, b)
  {
    var names := EnabledModelNames(channels, mapped);
    var matched := Matches(rule, pattern, names);
    if NamesServe(channels, matched, b) {
      var i :| 0 <= i < |matched| && BoundServes(channels, matched[i], b);
      MatchesMembers(rule, pattern, names, matched[i]);
    }
    if RuleServes(channels, rule, pattern, b) {
      var model :| RuleMatches(rule, pattern, model) && BoundServes(channels, model, b);
      var k :| 0 <= k < |channels| && Serves(channels[k], model) && Bound(channels[k].name, channels[k].kind) == b;
      NamesListed(channels, mapped, k, model);
      MatchesMembers(rule, pattern, names, model);
      var i :| 0 <= i < |matched| && matched[i] == model;
    }
  }

  /** A rule-based model gets exactly the enabled channels serving some model the
      rule matches, strictly sorted: each once. */
  lemma RuleExact(m: Model, channels: seq<Channel>, mapped: seq<string>)
    requires m.rule != NAME_RULE_EXACT
    ensures Strict(Enriched(m, channels, mapped).bound, BoundLess)
    ensures forall b :: b in Enriched(m, channels, mapped).bound <==> RuleServes(channels, m.rule, m.name, b)
  {
    var matched := Matches(m.rule, m.name, EnabledModelNames(channels, mapped));
    BoundsOrdered();
    SortedSetExact(Gathered(matched, channels), BoundLess);
    forall b ensures b in Enriched(m, channels, mapped).bound <==> RuleServes(channels, m.rule, m.name, b) {
      GatheredMembers(matched, channels, b);
      MatchesServe(channels, mapped, m.rule, m.name, b);
    }
  }

  /** A rule that is not one of the three patterns is an exact match: whatever its
      number, such a model gets the channels of its own name. */
  lemma UnknownRuleIsExact(m: Model, channels: seq<Channel>, mapped: seq<string>)
    requires m.rule !in {NAME_RULE_EXACT, NAME_RULE_PREFIX, NAME_RULE_CONTAINS, NAME_RULE_SUFFIX}
    ensures Enriched(m, channels, mapped).bound == ChannelsForModel(m.name, channels)
  {
    RuleExact(m, channels, mapped);
    ChannelsExact(m.name, channels);
    BoundsOrdered();
    var bound := Enriched(m, channels, mapped).bound;
    forall b ensures b in bound <==> b in ChannelsForModel(m.name, channels) {
      assert RuleServes(channels, m.rule, m.name, b) <==> BoundServes(channels, m.name, b) by {
        assert RuleMatches(m.rule, m.name, m.name);
      }
    }
    StrictUnique(bound, ChannelsForModel(m.name, channels), BoundLess);
  }

  /** The number of a rule says where the pattern stands in a name that matches: 1
      in front, 2 anywhere, 3 at the end, and any other number all of it. */
  lemma RuleMatchesExact(rule: int, pattern: string, model: string)
    ensures RuleMatches(rule, pattern, model) <==>
            if rule == 1 then exists rest :: model == pattern + rest
            else if rule == 2 then exists i: nat :: PartAt(model, pattern, i)
            else if rule == 3 then exists rest :: model == rest + pattern
            else model == pattern
  {
    ContainsExact(model, pattern);
    EndsExact(model, pattern);
  }

  lemma {:induction false} ListedExact(channels: seq<Channel>, model: string)
    ensures model in ListedNames(channels) <==>
            exists i :: 0 <= i < |channels| && channels[i].status == 1 && model in channels[i].models
  {
    if channels != [] {
      var n := |channels| - 1;
      ListedExact(channels[..n], model);
      assert forall i :: 0 <= i < n ==> channels[..n][i] == channels[i];
    }
  }

  /** The enabled names: what an enabled channel lists or a mapping asks for, each
      once, in order. */
  lemma EnabledNamesExact(channels: seq<Channel>, mapped: seq<string>, model: string)
    ensures Strict(EnabledModelNames(channels, mapped), Less)
    ensures model in EnabledModelNames(channels, mapped) <==>
            || model in mapped
            || exists i :: 0 <= i < |channels| && channels[i].status == 1 && model in channels[i].models
  {
    NamesOrdered();
    SortedSetExact(ListedNames(channels) + mapped, Less);
    ListedExact(channels, model);
  }

  lemma {:induction false} MatchesStrict(rule: int, pattern: string, names: seq<string>)
    requires Strict(names, Less)
    ensures Strict(Matches(rule, pattern, names), Less)
  {
    if names != [] {
      var n := |names| - 1;
      MatchesStrict(rule, pattern, names[..n]);
      forall x | x in Matches(rule, pattern, names[..n]) ensures Less(x, names[n]) {
        MatchesMembers(rule, pattern, names[..n], x);
        var i :| 0 <= i < n && names[i] == x;
      }
    }
  }

  /** What enrichment writes beside the channels: a served model is in the default
      group with quota type 0, one that nobody serves is in no group, a rule lists
      and counts the enabled names it matches, and the rest stays. */
  lemma EnrichedExact(m: Model, channels: seq<Channel>, mapped: seq<string>, name: string)
    ensures var r := Enriched(m, channels, mapped);
            && r.name == m.name && r.rule == m.rule
            && r.groups == (if r.bound == [] then [] else ["default"])
            && r.quotaTypes == (if r.bound == [] then m.quotaTypes else [0])
            && (m.rule == 0 ==> r.matched == m.matched && r.matchedCount == m.matchedCount)
            && (m.rule != 0 ==>
                  && r.matchedCount == |r.matched| && Strict(r.matched, Less)
                  && (name in r.matched <==> name in EnabledModelNames(channels, mapped)
                                             && RuleMatches(m.rule, m.name, name)))
  {
    var names := EnabledModelNames(channels, mapped);
    EnabledNamesExact(channels, mapped, name);
    MatchesMembers(m.rule, m.name, names, name);
    MatchesStrict(m.rule, m.name, names);
  }

  // -------------------------------------------------------------- in-place loop

  method BuildCache(names: seq<string>, channels: seq<Channel>) returns (cache: map<string, seq<Bound>>)
    ensures cache == map name | name in names :: ChannelsForModel(name, channels)
  {
    cache := map[];
    for n := 0 to |names|
      invariant cache == map name | name in names[..n] :: ChannelsForModel(name, channels)
    {
      assert names[..n + 1] == names[..n] + [names[n]];
      cache := cache[names[n] := ChannelsForModel(names[n], channels)];
    }
    assert names[..|names|] == names;
  }

  method EnrichByRule(m: Model, names: seq<string>, channels: seq<Channel>) returns (r: Model)
    ensures var matched := Matches(m.rule, m.name, names);
            r == Filled(m.(matched := matched, matchedCount := |matched|),
                        SortedSet(Gathered(matched, channels), BoundLess))
  {
    var matched, bound := [], [];
    for n := 0 to |names|
      invariant matched == Matches(m.rule, m.name, names[..n])
      invariant bound == Gathered(matched, channels)
    {
      assert names[..n + 1][..n] == names[..n];
      if RuleMatches(m.rule, m.name, names[n]) {
        assert (matched + [names[n]])[..|matched|] == matched;
        matched := matched + [names[n]];
        bound := bound + ChannelsForModel(names[n], channels);
      }
    }
    assert names[..|names|] == names;
    r := Filled(m.(matched := matched, matchedCount := |matched|), SortedSet(bound, BoundLess));
  }

  /** One model: an exact one through the cache, any other by its rule. */
  method EnrichOne(m: Model, names: seq<string>, cache: map<string, seq<Bound>>, channels: seq<Channel>,
                   ghost mapped: seq<string>)
    returns (r: Model)
    requires names == EnabledModelNames(channels, mapped) && cache == Cache(channels, mapped)
    ensures r == Enriched(m, channels, mapped)
  {
    if m.rule == NAME_RULE_EXACT {
      CacheExact(channels, mapped, m.name);
      r := Filled(m, Cached(cache, m.name));
    } else {
      r := EnrichByRule(m, names, channels);
    }
  }

  /** Enriches every model in place. */
  method EnrichModels(models: array<Model>, channels: seq<Channel>, mapped: seq<string>)
    modifies models
    ensures forall i :: 0 <= i < models.Length ==> models[i] == Enriched(old(models[i]), channels, mapped)
  {
    var names := EnabledModelNames(channels, mapped);
    var cache := BuildCache(names, channels);
    assert cache == Cache(channels, mapped);
    ghost var was := models[..];
    ghost var want := seq(|was|, i requires 0 <= i < |was| => Enriched(was[i], channels, mapped));
    for n := 0 to models.Length
      invariant forall i :: 0 <= i < n ==> models[i] == want[i]
      invariant forall i :: n <= i < models.Length ==> models[i] == was[i]
    {
      var r := EnrichOne(models[n], names, cache, channels, mapped);
      models[n] := r;
    }
  }
}
