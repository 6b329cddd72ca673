/** One batch of gateway feedback: which credentials are refreshed, and which
    channels are reported for automatic disabling. */
module FeedbackBatch {
  import opened Prelude
  import opened Text
  import StatusRanges

  datatype Event = Event(channelId: string, status: Option<int>, message: string)

  datatype Policy = Policy(enabled: bool, ranges: seq<StatusRanges.Range>, keywords: seq<string>)

  /** The answer of one automatic-disable call; `None` is an error. */
  datatype Disabling = Disabling(changed: bool, channelDisabled: bool, keyDisabled: bool)

  datatype Outcome = Outcome(accepted: nat, disabledChannels: nat, disabledKeys: nat, refreshed: nat)

  // -------------------------------------------------------------------- policy

  function Utf8Length(s: string): nat {
    if s == "" then 0
    else (if s[0] < '\U{80}' then 1 else if s[0] < '\U{800}' then 2 else if s[0] < '\U{10000}' then 3 else 4)
         + Utf8Length(s[1..])
  }

  predicate Exempt(message: string) {
    Contains(message, "grok cli version") || Contains(message, "not from a valid issuer")
    || Contains(message, "x-grok-client-version")
  }

  predicate InRanges(ranges: seq<StatusRanges.Range>, code: int) {
    exists i :: 0 <= i < |ranges| && StatusRanges.Contains(ranges[i], code)
  }

  predicate ShouldDisable(p: Policy, e: Event) {
    var message := Lower(e.message);
    if Exempt(message) then false
    else if e.status.Some? && InRanges(p.ranges, e.status.value) then true
    else if p.keywords == [] || e.message == "" then false
    else exists i :: 0 <= i < |p.keywords| && Utf8Length(p.keywords[i]) >= 4 && Contains(message, p.keywords[i])
  }

  // The operator's options, and what they say.

  const CODES_OPTION := "AutomaticDisableStatusCodes"
  const KEYWORDS_OPTION := "AutomaticDisableKeywords"
  const ENABLED_OPTION := "AutomaticDisableChannelEnabled"

  function OptionOr(options: map<string, string>, key: string, default: string): string {
    if key in options then options[key] else default
  }

  predicate OptionIsOn(options: map<string, string>, key: string) {
    key in options && Lower(Trim(options[key])) in ["1", "true", "yes", "on"]
  }

  /** The codes named by the rule text; none when the text is not valid. */
  ghost predicate CodeListed(options: map<string, string>, code: int) {
    var key := "AutomaticDisableStatusCodes";
    var rules := if key in options then options[key] else "401";
    StatusRanges.ValidRules(rules) && StatusRanges.Names(rules, code)
  }

  /** A line of the keyword text, trimmed, of at least four bytes, occurs in the
      message, whatever the case. */
  ghost predicate KeywordFound(options: map<string, string>, message: string) {
    var key := "AutomaticDisableKeywords";
    key in options && exists line :: line in Lines(options[key]) && KeywordIn(line, message)
  }

  ghost predicate KeywordIn(line: string, message: string) {
    Utf8Length(Trim(line)) >= 4 && Contains(Lower(message), Lower(Trim(line)))
  }

  function Lowered(words: seq<string>): seq<string> {
    seq(|words|, i requires 0 <= i < |words| => Lower(words[i]))
  }

  lemma {:induction false} CleanMember(parts: seq<string>, x: string)
    ensures x in Clean(parts) <==> x != "" && exists p :: p in parts && Trim(p) == x
  {
    if parts != [] {
      CleanMember(parts[1..], x);
      assert parts == [parts[0]] + parts[1..];
    }
  }

  /** Bytes of UTF-8 add up over a text; a character has as many as its code point
      needs (section 3 of RFC 3629). */
  lemma {:induction false} Utf8LengthExact(s: string, t: string, c: char)
    ensures Utf8Length(s + t) == Utf8Length(s) + Utf8Length(t)
    ensures Utf8Length([c])
         == if c as int <= 0x7F then 1 else if c as int <= 0x7FF then 2 else if c as int <= 0xFFFF then 3 else 4
  {
    if s == "" {
      assert s + t == t;
    } else {
      assert (s + t)[1..] == s[1..] + t;
      Utf8LengthExact(s[1..], t, c);
    }
  }

  lemma {:induction false} LowerKeepsLength(s: string)
    ensures Utf8Length(Lower(s)) == Utf8Length(s)
  {
    if s != "" {
      LowerKeepsLength(s[1..]);
      assert Lower(s)[1..] == Lower(s[1..]);
    }
  }

  /** The policy's keywords find exactly what the keyword text asks for. */
  lemma KeywordsFollow(options: map<string, string>, keywords: seq<string>, message: string)
    requires keywords == Lowered(Clean(Lines(OptionOr(options, KEYWORDS_OPTION, ""))))
    ensures (exists i :: 0 <= i < |keywords| && Utf8Length(keywords[i]) >= 4 && Contains(Lower(message), keywords[i]))
       <==> KeywordFound(options, message)
  {
    var lines := Lines(OptionOr(options, KEYWORDS_OPTION, ""));
    var words := Clean(lines);
    if i :| 0 <= i < |keywords| && Utf8Length(keywords[i]) >= 4 && Contains(Lower(message), keywords[i]) {
      CleanMember(lines, words[i]);
      LowerKeepsLength(words[i]);
      var line :| line in lines && Trim(line) == words[i];
      assert KeywordIn(line, message);
    }
    if line :| line in lines && KeywordIn(line, message) {
      assert Trim(line) != "";
      CleanMember(lines, Trim(line));
      LowerKeepsLength(Trim(line));
      var i :| 0 <= i < |words| && words[i] == Trim(line);
      assert keywords[i] == Lower(words[i]);
    }
  }

  /** The switch: on for these four words, in any case and spacing. */
  ghost predicate SwitchedOn(options: map<string, string>) {
    var key := "AutomaticDisableChannelEnabled";
    && key in options
    && var word := Lower(Trim(options[key])); word == "1" || word == "true" || word == "yes" || word == "on"
  }

  /** What the policy built from the options decides, in terms of the options. */
  ghost predicate Follows(p: Policy, options: map<string, string>) {
    && (p.enabled <==> SwitchedOn(options))
    && (forall code :: InRanges(p.ranges, code) <==> CodeListed(options, code))
    && p.keywords == Lowered(Clean(Lines(OptionOr(options, KEYWORDS_OPTION, ""))))
  }

  lemma SwitchRead(options: map<string, string>)
    ensures OptionIsOn(options, ENABLED_OPTION) <==> SwitchedOn(options)
  {
  }

  /** Builds the policy; an invalid rule text lists no code. */
  method FromOptions(options: map<string, string>) returns (p: Policy)
    ensures Follows(p, options)
  {
    var rules := OptionOr(options, CODES_OPTION, "401");
    var parsed := StatusRanges.ParseStatusCodeRanges(rules);
    var ranges := if parsed.Ok? then parsed.ranges else [];
    assert forall code :: InRanges(ranges, code) <==> StatusRanges.Covers(ranges, code);
    SwitchRead(options);
    p := Policy(OptionIsOn(options, ENABLED_OPTION), ranges,
                Lowered(Clean(Lines(OptionOr(options, KEYWORDS_OPTION, "")))));
  }

  /** The policy disables on exactly the codes the rule text names and the messages
      with a keyword, unless the message is exempt. */
  lemma PolicyFollowsRules(options: map<string, string>, p: Policy, e: Event)
    requires Follows(p, options)
    ensures ShouldDisable(p, e) <==>
            && !Contains(Lower(e.message), "grok cli version")
            && !Contains(Lower(e.message), "not from a valid issuer")
            && !Contains(Lower(e.message), "x-grok-client-version")
            && ((e.status.Some? && CodeListed(options, e.status.value)) || KeywordFound(options, e.message))
  {
    KeywordsFollow(options, p.keywords, e.message);
    if i :| 0 <= i < |p.keywords| && Utf8Length(p.keywords[i]) >= 4 && Contains(Lower(e.message), p.keywords[i]) {
      assert p.keywords[i] != "";
    }
  }

  // ------------------------------------------------------------- classification

  predicate WantsRefresh(e: Event) {
    e.status == Some(401) || e.status == Some(403)
  }

  predicate WantsDisable(p: Policy, e: Event) {
    p.enabled && ShouldDisable(p, e)
  }

  function NumericId(channelId: string): Option<nat> {
    var id := Trim(channelId);
    if id == "" || !StatusRanges.AllDigits(id) then None
    else var v := StatusRanges.Value(id);
         if 0 <= v <= U64_MAX then Some(v) else None
  }

  /** What the batch loop needs to know of an event. */
  datatype Fact = Fact(id: Option<nat>, wantsRefresh: bool, wantsDisable: bool)

  function Classify(p: Policy, e: Event): Fact {
    Fact(NumericId(e.channelId), WantsRefresh(e), WantsDisable(p, e))
  }

  /** An event that leads to a refresh of channel `id`. */
  predicate RefreshFor(f: Fact, id: nat) {
    f.wantsRefresh && f.id == Some(id)
  }

  // -------------------------------------------------------------------- batch

  ghost predicate NoRepeats(s: seq<nat>) {
    forall i, j :: 0 <= i < j < |s| ==> s[i] != s[j]
  }

  /** The channels whose refresh answered true; `refresh(k)` answers the k-th. */
  ghost function RefreshedSet(attempts: seq<nat>, refresh: nat -> bool): set<nat> {
    set k | 0 <= k < |attempts| && refresh(k) :: attempts[k]
  }

  /** An event that must be sent to the disable call, given who was refreshed. */
  ghost predicate Reported(f: Fact, refreshed: set<nat>) {
    f.wantsDisable && f.id.Some? && !(f.wantsRefresh && f.id.value in refreshed)
  }

  function CountIf(n: nat, disable: nat -> Option<Disabling>, keys: bool): nat {
    if n == 0 then 0
    else CountIf(n - 1, disable, keys) + Tally(disable(n - 1), keys)
  }

  /** What one disable call adds to a counter: nothing on an error. */
  function Tally(answer: Option<Disabling>, keys: bool): nat {
    match answer
    case None => 0
    case Some(d) => if d.changed && (if keys then d.keyDisabled else d.channelDisabled) then 1 else 0
  }

  lemma RefreshedGrows(attempts: seq<nat>, refresh: nat -> bool, id: nat)
    requires id !in attempts
    ensures RefreshedSet(attempts + [id], refresh)
            == RefreshedSet(attempts, refresh) + if refresh(|attempts|) then {id} else {}
    ensures id !in RefreshedSet(attempts, refresh)
  {
    var grown := attempts + [id];
    assert grown[|attempts|] == id;
    forall x | x in RefreshedSet(attempts, refresh) ensures x in RefreshedSet(grown, refresh) {
      var k :| 0 <= k < |attempts| && refresh(k) && attempts[k] == x;
      assert grown[k] == x;
    }
  }

  /** The refresh bookkeeping after the first `n` events. */
  ghost predicate AttemptsOk(facts: seq<Fact>, n: nat, attempts: seq<nat>, memo: map<nat, bool>,
                             refreshed: nat, refresh: nat -> bool)
    requires n <= |facts|
  {
    && NoRepeats(attempts)
    && (forall id :: id in attempts <==> exists i :: 0 <= i < n && RefreshFor(facts[i], id))
    && (forall id :: id in memo <==> id in attempts)
    && (forall id | id in memo :: memo[id] == (id in RefreshedSet(attempts, refresh)))
    && refreshed == |RefreshedSet(attempts, refresh)|
  }

  ghost predicate ReportsOk(facts: seq<Fact>, n: nat, reports: seq<nat>, refreshed: set<nat>)
    requires n <= |facts|
  {
    && (forall j, k :: 0 <= j < k < |reports| ==> reports[j] < reports[k])
    && (forall i :: i in reports <==> 0 <= i < n && Reported(facts[i], refreshed))
  }

  lemma NewAttempt(facts: seq<Fact>, n: nat, attempts: seq<nat>, memo: map<nat, bool>, refreshed: nat,
                   refresh: nat -> bool, id: nat)
    requires n < |facts| && AttemptsOk(facts, n, attempts, memo, refreshed, refresh)
    requires id !in memo && RefreshFor(facts[n], id)
    ensures AttemptsOk(facts, n + 1, attempts + [id], memo[id := refresh(|attempts|)],
                       refreshed + (if refresh(|attempts|) then 1 else 0), refresh)
  {
    RefreshedGrows(attempts, refresh, id);
  }

  lemma NoNewAttempt(facts: seq<Fact>, n: nat, attempts: seq<nat>, memo: map<nat, bool>, refreshed: nat,
                     refresh: nat -> bool)
    requires n < |facts| && AttemptsOk(facts, n, attempts, memo, refreshed, refresh)
    requires facts[n].wantsRefresh && facts[n].id.Some? ==> facts[n].id.value in memo
    ensures AttemptsOk(facts, n + 1, attempts, memo, refreshed, refresh)
  {
  }

  lemma LaterAttemptKeepsReports(facts: seq<Fact>, n: nat, attempts: seq<nat>, memo: map<nat, bool>, refreshed: nat,
                                 refresh: nat -> bool, id: nat, reports: seq<nat>)
    requires n < |facts| && AttemptsOk(facts, n, attempts, memo, refreshed, refresh) && id !in memo
    requires ReportsOk(facts, n, reports, RefreshedSet(attempts, refresh))
    ensures ReportsOk(facts, n, reports, RefreshedSet(attempts + [id], refresh))
  {
    RefreshedGrows(attempts, refresh, id);
    forall i | 0 <= i < n && facts[i].wantsRefresh && facts[i].id.Some? ensures facts[i].id.value in attempts {
      assert RefreshFor(facts[i], facts[i].id.value);
    }
  }

  lemma ReportKeeps(facts: seq<Fact>, n: nat, reports: seq<nat>, refreshed: set<nat>, report: bool)
    requires n < |facts| && ReportsOk(facts, n, reports, refreshed)
    requires report <==> Reported(facts[n], refreshed)
    ensures ReportsOk(facts, n + 1, if report then reports + [n] else reports, refreshed)
  {
    assert forall k :: 0 <= k < |reports| ==> reports[k] in reports;
  }

  /** Look the channel up in the memo, or refresh it and remember the answer. */
  method RefreshOnce(facts: seq<Fact>, n: nat, attempts: seq<nat>, memo: map<nat, bool>, refreshed: nat,
                     refresh: nat -> bool, id: nat, ghost reports: seq<nat>)
    returns (attempts': seq<nat>, memo': map<nat, bool>, refreshed': nat, answer: bool)
    requires n < |facts| && AttemptsOk(facts, n, attempts, memo, refreshed, refresh)
    requires RefreshFor(facts[n], id) && ReportsOk(facts, n, reports, RefreshedSet(attempts, refresh))
    ensures AttemptsOk(facts, n + 1, attempts', memo', refreshed', refresh)
    ensures ReportsOk(facts, n, reports, RefreshedSet(attempts', refresh))
    ensures answer == (id in RefreshedSet(attempts', refresh))
  {
    if id in memo {
      NoNewAttempt(facts, n, attempts, memo, refreshed, refresh);
      attempts', memo', refreshed', answer := attempts, memo, refreshed, memo[id];
    } else {
      NewAttempt(facts, n, attempts, memo, refreshed, refresh, id);
      LaterAttemptKeepsReports(facts, n, attempts, memo, refreshed, refresh, id, reports);
      answer := refresh(|attempts|);
      attempts', memo' := attempts + [id], memo[id := answer];
      refreshed' := if answer then refreshed + 1 else refreshed;
      assert memo'[id] == answer;
    }
  }

  /** What the loop has gathered: the channels refreshed, in order, the answers
      remembered, and the events sent to the disable call. */
  datatype Batch = Batch(attempts: seq<nat>, memo: map<nat, bool>, refreshed: nat, reports: seq<nat>,
                         channels: nat, keys: nat)

  ghost predicate BatchOk(facts: seq<Fact>, n: nat, b: Batch, refresh: nat -> bool, disable: nat -> Option<Disabling>)
    requires n <= |facts|
  {
    && AttemptsOk(facts, n, b.attempts, b.memo, b.refreshed, refresh)
    && ReportsOk(facts, n, b.reports, RefreshedSet(b.attempts, refresh))
    && b.channels == CountIf(|b.reports|, disable, false)
    && b.keys == CountIf(|b.reports|, disable, true)
  }

  /** The refresh an event asks for, and whether it is still to be reported. */
  method RefreshStep(facts: seq<Fact>, n: nat, b: Batch, refresh: nat -> bool, ghost disable: nat -> Option<Disabling>)
    returns (next: Batch, report: bool)
    requires n < |facts| && BatchOk(facts, n, b, refresh, disable)
    ensures AttemptsOk(facts, n + 1, next.attempts, next.memo, next.refreshed, refresh)
    ensures ReportsOk(facts, n, b.reports, RefreshedSet(next.attempts, refresh))
    ensures (next.reports, next.channels, next.keys) == (b.reports, b.channels, b.keys)
    ensures report <==> Reported(facts[n], RefreshedSet(next.attempts, refresh))
  {
    var f := facts[n];
    report := f.wantsDisable && f.id.Some?;
    next := b;
    if f.wantsRefresh && f.id.Some? {
      var attempts, memo, refreshed, answer :=
        RefreshOnce(facts, n, b.attempts, b.memo, b.refreshed, refresh, f.id.value, b.reports);
      next := b.(attempts := attempts, memo := memo, refreshed := refreshed);
      report := report && !answer;
    } else {
      NoNewAttempt(facts, n, b.attempts, b.memo, b.refreshed, refresh);
    }
  }

  method FactStep(facts: seq<Fact>, n: nat, b: Batch, refresh: nat -> bool, disable: nat -> Option<Disabling>)
    returns (next: Batch)
    requires n < |facts| && BatchOk(facts, n, b, refresh, disable)
    ensures BatchOk(facts, n + 1, next, refresh, disable)
  {
    var report;
    next, report := RefreshStep(facts, n, b, refresh, disable);
    ReportKeeps(facts, n, next.reports, RefreshedSet(next.attempts, refresh), report);
    if report {
      next := next.(channels := next.channels + Tally(disable(|next.reports|), false),
                    keys := next.keys + Tally(disable(|next.reports|), true),
                    reports := next.reports + [n]);
    }
  }

  /** The batch loop. `refresh(k)` answers the k-th refresh and `disable(k)` the
      k-th disable call. */
  method ProcessFacts(facts: seq<Fact>, refresh: nat -> bool, disable: nat -> Option<Disabling>)
    returns (outcome: Outcome, attempts: seq<nat>, reports: seq<nat>)
    ensures NoRepeats(attempts)
    ensures forall id :: id in attempts <==> exists i :: 0 <= i < |facts| && RefreshFor(facts[i], id)
    ensures outcome.accepted == |facts|
    ensures outcome.refreshed == |RefreshedSet(attempts, refresh)|
    ensures ReportsOk(facts, |facts|, reports, RefreshedSet(attempts, refresh))
    ensures outcome.disabledChannels == CountIf(|reports|, disable, false)
    ensures outcome.disabledKeys == CountIf(|reports|, disable, true)
  {
    var b := Batch([], map[], 0, [], 0, 0);
    for n := 0 to |facts|
      invariant BatchOk(facts, n, b, refresh, disable)
    {
      b := FactStep(facts, n, b, refresh, disable);
    }
    attempts, reports := b.attempts, b.reports;
    outcome := Outcome(|facts|, b.channels, b.keys, b.refreshed);
  }

  /** The disable calls that were answered with a change, of a key or of a channel. */
  ghost function Hits(n: nat, disable: nat -> Option<Disabling>, keys: bool): set<nat> {
    set k: nat | k < n && disable(k).Some? && disable(k).value.changed
                 && (if keys then disable(k).value.keyDisabled else disable(k).value.channelDisabled)
  }

  lemma {:induction false} CountIsHits(n: nat, disable: nat -> Option<Disabling>, keys: bool)
    ensures CountIf(n, disable, keys) == |Hits(n, disable, keys)|
  {
    if n > 0 {
      CountIsHits(n - 1, disable, keys);
      var k := n - 1;
      assert Hits(n, disable, keys) == Hits(k, disable, keys) + if Tally(disable(k), keys) == 1 then {k} else {};
    }
  }

  /** Each channel with a 401 or 403 is refreshed once and only once, the count
      is the number of channels whose refresh succeeded, and an event reaches
      the disable call, once and in the order of the batch, exactly when the
      policy is on and asks for it and it is not a 401 or 403 of a channel
      refreshed in this batch. The counters are the calls answered with a change. */
  method Process(p: Policy, events: seq<Event>, refresh: nat -> bool, disable: nat -> Option<Disabling>)
    returns (outcome: Outcome, attempts: seq<nat>, reports: seq<nat>)
    ensures NoRepeats(attempts)
    ensures forall id :: id in attempts <==>
              exists i :: 0 <= i < |events| && NumericId(events[i].channelId) == Some(id)
                          && (events[i].status == Some(401) || events[i].status == Some(403))
    ensures outcome.accepted == |events|
    ensures outcome.refreshed == |RefreshedSet(attempts, refresh)|
    ensures forall j, k :: 0 <= j < k < |reports| ==> reports[j] < reports[k]
    ensures forall i :: i in reports <==>
              && 0 <= i < |events| && p.enabled && ShouldDisable(p, events[i])
              && NumericId(events[i].channelId).Some?
              && !(&& (events[i].status == Some(401) || events[i].status == Some(403))
                   && NumericId(events[i].channelId).value in RefreshedSet(attempts, refresh))
    ensures outcome.disabledChannels == |Hits(|reports|, disable, false)|
    ensures outcome.disabledKeys == |Hits(|reports|, disable, true)|
  {
    var facts := seq(|events|, i requires 0 <= i < |events| => Classify(p, events[i]));
    outcome, attempts, reports := ProcessFacts(facts, refresh, disable);
    assert forall i :: 0 <= i < |events| ==> facts[i] == Classify(p, events[i]);
    forall id ensures id in attempts <==>
              exists i :: 0 <= i < |events| && NumericId(events[i].channelId) == Some(id)
                          && (events[i].status == Some(401) || events[i].status == Some(403))
    {
      assert forall i :: 0 <= i < |events| ==>
               (RefreshFor(facts[i], id)
                <==> && NumericId(events[i].channelId) == Some(id)
                     && (events[i].status == Some(401) || events[i].status == Some(403)));
    }
    CountIsHits(|reports|, disable, false);
    CountIsHits(|reports|, disable, true);
  }
}
