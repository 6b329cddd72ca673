/** The check-in store, its monthly statistics, and the check-in handler that
    writes the store first and credits the user second. */
module CheckIn {
  import opened Prelude
  import opened Text
  import opened Calendar
  import opened DateText

  datatype Record = Record(id: nat, user: nat, date: string, quota: int, createdAt: int)
  datatype Outcome = Inserted(record: Record) | Duplicate

  function Ids(rs: seq<Record>): seq<nat> {
    seq(|rs|, i requires 0 <= i < |rs| => rs[i].id)
  }

  predicate Taken(rs: seq<Record>, user: nat, date: string) {
    exists i :: 0 <= i < |rs| && rs[i].user == user && rs[i].date == date
  }

  /** What `insert` answers and stores. */
  function InsertOutcome(rs: seq<Record>, record: Record): Outcome {
    if Taken(rs, record.user, record.date) then Duplicate
    else Inserted(if record.id == 0 then record.(id := SatSucc(MaxId(Ids(rs)))) else record)
  }

  function Stored(rs: seq<Record>, record: Record): seq<Record> {
    match InsertOutcome(rs, record)
    case Duplicate => rs
    case Inserted(r) => rs + [r]
  }

  class MemoryCheckinStore {
    var records: seq<Record>

    constructor ()
      ensures records == []
    {
      records := [];
    }

    /** Membership test, id assignment and push under one write lock. */
    method Insert(record: Record) returns (outcome: Outcome)
      modifies this
      ensures outcome == InsertOutcome(old(records), record)
      ensures records == Stored(old(records), record)
    {
      var i := 0;
      while i < |records|
        invariant 0 <= i <= |records| && records == old(records)
        invariant forall k :: 0 <= k < i ==> !(records[k].user == record.user && records[k].date == record.date)
      {
        if records[i].user == record.user && records[i].date == record.date {
          return Duplicate;
        }
        i := i + 1;
      }
      var stored := if record.id == 0 then record.(id := SatSucc(MaxId(Ids(records)))) else record;
      records := records + [stored];
      outcome := Inserted(stored);
    }
  }

  /** The award drawn between the configured bounds, from a clock seed. */
  function AwardQuota(minQuota: int, maxQuota: int, seed: nat): (award: int)
    requires minQuota <= I64_MAX && maxQuota <= I64_MAX
    ensures award >= 0 && minQuota <= award
    ensures award <= if minQuota <= maxQuota && 0 <= maxQuota then maxQuota else
                       if minQuota < 0 then 0 else minQuota
  {
    var lo := if minQuota < 0 then 0 else minQuota;
    var hi := if maxQuota < lo then lo else maxQuota;
    var span := if hi - lo + 1 > I64_MAX then I64_MAX else hi - lo + 1;
    if span <= 1 then lo else lo + seed % span
  }

  /** Which amounts are drawn: each from the lower bound, or 0 if that is negative, to
      the upper one, except the 64-bit maximum itself when all of it is the range. */
  lemma AwardExact(minQuota: int, maxQuota: int, award: int)
    requires minQuota <= I64_MAX && maxQuota <= I64_MAX
    ensures var lo := if minQuota < 0 then 0 else minQuota;
            (exists seed: nat :: AwardQuota(minQuota, maxQuota, seed) == award) <==>
            award == lo || (lo < award <= maxQuota && award - lo < I64_MAX)
  {
    var lo := if minQuota < 0 then 0 else minQuota;
    if award == lo || (lo < award <= maxQuota && award - lo < I64_MAX) {
      SeedFor(minQuota, maxQuota, award - lo);
      assert AwardQuota(minQuota, maxQuota, award - lo) == award;
    }
    if seed: nat :| AwardQuota(minQuota, maxQuota, seed) == award {
      SeedBelow(minQuota, maxQuota, seed);
    }
  }

  lemma SeedFor(minQuota: int, maxQuota: int, seed: nat)
    requires minQuota <= I64_MAX && maxQuota <= I64_MAX
    requires var lo := if minQuota < 0 then 0 else minQuota;
             seed == 0 || (lo + seed <= maxQuota && seed < I64_MAX)
    ensures AwardQuota(minQuota, maxQuota, seed) == (if minQuota < 0 then 0 else minQuota) + seed
  {
    var lo := if minQuota < 0 then 0 else minQuota;
    var hi := if maxQuota < lo then lo else maxQuota;
    var span := if hi - lo + 1 > I64_MAX then I64_MAX else hi - lo + 1;
    if span > 1 { SmallRemainder(seed, span); }
  }

  lemma SeedBelow(minQuota: int, maxQuota: int, seed: nat)
    requires minQuota <= I64_MAX && maxQuota <= I64_MAX
    ensures var lo, award := if minQuota < 0 then 0 else minQuota, AwardQuota(minQuota, maxQuota, seed);
            award == lo || (lo < award <= maxQuota && award - lo < I64_MAX)
  {
    var lo := if minQuota < 0 then 0 else minQuota;
    var hi := if maxQuota < lo then lo else maxQuota;
    var span := if hi - lo + 1 > I64_MAX then I64_MAX else hi - lo + 1;
    if span > 1 { assert seed % span < span; }
  }

  lemma SmallRemainder(n: nat, m: nat)
    requires n < m
    ensures n % m == n
  {
    var q := n / m;
    assert n == q * m + n % m;
    assert q <= 0 || q * m >= m;
  }

  // ------------------------------------------------------------------ handlers

  /** One award: who, on which printed UTC day, how much. */
  datatype Award = Award(user: nat, date: string, quota: int)

  /** `records` is the store; `pending` the handlers between the store write and
      the quota credit; `credited` and `lost` how those ended. */
  datatype State = State(records: seq<Record>, pending: multiset<Award>,
                         credited: multiset<Award>, lost: multiset<Award>)

  datatype Event =
    | Begin(user: nat, day: int, quota: int, now: int)
    | CreditOk(award: Award)
    | CreditFails(award: Award)

  const Init := State([], multiset{}, multiset{}, multiset{})

  function Step(s: State, e: Event): State {
    match e
    case Begin(user, day, quota, now) =>
      var date := DateFromUnixDays(day);
      var record := Record(0, user, date, quota, now);
      if InsertOutcome(s.records, record).Duplicate? then s
      else s.(records := Stored(s.records, record), pending := s.pending + multiset{Award(user, date, quota)})
    case CreditOk(a) =>
      if a in s.pending then s.(pending := s.pending - multiset{a}, credited := s.credited + multiset{a}) else s
    case CreditFails(a) =>
      if a in s.pending then s.(pending := s.pending - multiset{a}, lost := s.lost + multiset{a}) else s
  }

  function Run(events: seq<Event>): State {
    if events == [] then Init else Step(Run(events[..|events| - 1]), events[|events| - 1])
  }

  ghost predicate OnFourDigitDays(events: seq<Event>) {
    forall e | e in events && e.Begin? :: FourDigitDay(e.day)
  }

  function AwardOf(r: Record): Award {
    Award(r.user, r.date, r.quota)
  }

  function Awards(rs: seq<Record>): multiset<Award> {
    if rs == [] then multiset{} else Awards(rs[..|rs| - 1]) + multiset{AwardOf(rs[|rs| - 1])}
  }

  ghost predicate Distinct(rs: seq<Record>) {
    forall i, j :: 0 <= i < j < |rs| ==> !(rs[i].user == rs[j].user && rs[i].date == rs[j].date)
  }

  ghost predicate Dated(r: Record) {
    exists n :: FourDigitDay(n) && r.date == DateFromUnixDays(n)
  }

  ghost predicate Inv(s: State) {
    && Distinct(s.records)
    && (forall r | r in s.records :: Dated(r))
    && Awards(s.records) == s.pending + s.credited + s.lost
  }

  lemma {:induction false} RunKeeps(events: seq<Event>)
    requires OnFourDigitDays(events)
    ensures Inv(Run(events))
  {
    if events != [] {
      var before, e := events[..|events| - 1], events[|events| - 1];
      assert forall x | x in before :: x in events;
      RunKeeps(before);
      assert e in events;
      StepKeeps(Run(before), e);
    }
  }

  lemma StepKeeps(s: State, e: Event)
    requires Inv(s) && (e.Begin? ==> FourDigitDay(e.day))
    ensures Inv(Step(s, e))
  {
    if e.Begin? { InsertKeeps(s, e.user, e.day, e.quota, e.now); }
  }

  lemma InsertKeeps(s: State, user: nat, day: int, quota: int, now: int)
    requires Inv(s) && FourDigitDay(day)
    ensures Inv(Step(s, Begin(user, day, quota, now)))
  {
    var record := Record(0, user, DateFromUnixDays(day), quota, now);
    var rs := Stored(s.records, record);
    if !InsertOutcome(s.records, record).Duplicate? {
      assert rs[..|rs| - 1] == s.records;
    }
  }

  /** In every run a user has at most one record per UTC day. */
  lemma OneRecordPerDay(events: seq<Event>, i: int, j: int, day: int)
    requires OnFourDigitDays(events) && FourDigitDay(day)
    requires var rs := Run(events).records;
             && 0 <= i < |rs| && 0 <= j < |rs| && rs[i].user == rs[j].user
             && rs[i].date == DateFromUnixDays(day) == rs[j].date
    ensures i == j
  {
    RunKeeps(events);
  }

  lemma {:induction false} AwardsCounted(rs: seq<Record>, a: Award)
    requires Distinct(rs)
    ensures Awards(rs)[a] <= 1
    ensures a in Awards(rs) ==> Taken(rs, a.user, a.date)
    ensures forall b | b in Awards(rs) && a in Awards(rs) && b.user == a.user && b.date == a.date :: b == a
  {
    if rs != [] {
      var front := rs[..|rs| - 1];
      AwardsCounted(front, a);
      AwardsCounted(front, AwardOf(rs[|rs| - 1]));
      forall b | b in Awards(rs) && a in Awards(rs) && b.user == a.user && b.date == a.date ensures b == a {
        if b in Awards(front) { AwardsCounted(front, b); }
      }
    }
  }

  /** Awards are conserved: each stored record is pending, credited or lost,
      exactly once, so no user is credited twice on one day. */
  lemma CreditedOncePerDay(events: seq<Event>, a: Award, b: Award)
    requires OnFourDigitDays(events)
    ensures var s := Run(events);
            && Awards(s.records) == s.pending + s.credited + s.lost
            && s.credited[a] <= 1
            && (a in s.credited && b in s.credited && a.user == b.user && a.date == b.date ==> a == b)
  {
    RunKeeps(events);
    AwardsCounted(Run(events).records, a);
  }

  /** The credit call moves the one award it was made for, to the users it reached
      or to those lost. */
  lemma CreditMoves(events: seq<Event>, a: Award)
    requires a in Run(events).pending
    ensures var s, paid, gone := Run(events), Run(events + [CreditOk(a)]), Run(events + [CreditFails(a)]);
            && paid.credited == s.credited + multiset{a} && paid.lost == s.lost
            && gone.lost == s.lost + multiset{a} && gone.credited == s.credited
            && paid.pending == gone.pending == s.pending - multiset{a}
            && paid.records == gone.records == s.records
  {
    assert (events + [CreditOk(a)])[..|events|] == events;
    assert (events + [CreditFails(a)])[..|events|] == events;
  }

  // ---------------------------------------------------------------- statistics

  function OfUser(rs: seq<Record>, user: nat): seq<Record> {
    if rs == [] then []
    else OfUser(rs[..|rs| - 1], user) + if rs[|rs| - 1].user == user then [rs[|rs| - 1]] else []
  }

  function InMonth(rs: seq<Record>, month: string): seq<Record> {
    if rs == [] then []
    else InMonth(rs[..|rs| - 1], month) + if InMonthText(rs[|rs| - 1].date, month) then [rs[|rs| - 1]] else []
  }

  /** A stable descending sort by date. */
  function InsertDesc(sorted: seq<Record>, r: Record): seq<Record> {
    if sorted == [] || Less(sorted[0].date, r.date) then [r] + sorted
    else [sorted[0]] + InsertDesc(sorted[1..], r)
  }

  function SortDesc(rs: seq<Record>): seq<Record> {
    if rs == [] then [] else InsertDesc(SortDesc(rs[..|rs| - 1]), rs[|rs| - 1])
  }

  /** The `records` of the statistics response. */
  function MonthRecords(rs: seq<Record>, user: nat, month: string): seq<Record> {
    SortDesc(InMonth(OfUser(rs, user), month))
  }

  ghost predicate Descending(rs: seq<Record>) {
    forall i, j :: 0 <= i < j < |rs| ==> Less(rs[j].date, rs[i].date)
  }

  lemma {:induction false} InsertDescSame(sorted: seq<Record>, r: Record)
    ensures multiset(InsertDesc(sorted, r)) == multiset(sorted) + multiset{r}
  {
    if sorted != [] {
      assert sorted == [sorted[0]] + sorted[1..];
      InsertDescSame(sorted[1..], r);
    }
  }

  lemma DescendingCons(x: Record, rest: seq<Record>)
    requires Descending(rest) && forall y | y in rest :: Less(y.date, x.date)
    ensures Descending([x] + rest)
  {
  }

  lemma {:induction false} InsertDescSorted(sorted: seq<Record>, r: Record)
    requires Descending(sorted) && forall x | x in sorted :: x.date != r.date
    ensures Descending(InsertDesc(sorted, r))
  {
    if sorted != [] {
      LessTotal(sorted[0].date, r.date);
      if Less(sorted[0].date, r.date) {
        forall y | y in sorted ensures Less(y.date, r.date) {
          if y != sorted[0] { LessTransitive(y.date, sorted[0].date, r.date); }
        }
        DescendingCons(r, sorted);
      } else {
        InsertDescSorted(sorted[1..], r);
        InsertDescSame(sorted[1..], r);
        var rest := InsertDesc(sorted[1..], r);
        forall y | y in rest ensures Less(y.date, sorted[0].date) {
          assert y in multiset(rest);
        }
        DescendingCons(sorted[0], rest);
      }
    }
  }

  lemma {:induction false} SortDescSorted(rs: seq<Record>)
    requires forall i, j :: 0 <= i < j < |rs| ==> rs[i].date != rs[j].date
    ensures Descending(SortDesc(rs)) && multiset(SortDesc(rs)) == multiset(rs)
  {
    if rs != [] {
      var front, last := rs[..|rs| - 1], rs[|rs| - 1];
      SortDescSorted(front);
      forall x | x in SortDesc(front) ensures x.date != last.date {
        assert x in multiset(front);
      }
      InsertDescSorted(SortDesc(front), last);
      InsertDescSame(SortDesc(front), last);
      assert rs == front + [last];
    }
  }

  lemma {:induction false} OfUserExact(rs: seq<Record>, user: nat)
    requires Distinct(rs)
    ensures forall r :: r in OfUser(rs, user) <==> r in rs && r.user == user
    ensures forall i, j :: 0 <= i < j < |OfUser(rs, user)| ==> OfUser(rs, user)[i].date != OfUser(rs, user)[j].date
  {
    if rs != [] {
      var front, last := rs[..|rs| - 1], rs[|rs| - 1];
      OfUserExact(front, user);
      assert rs == front + [last];
      forall x | x in OfUser(front, user) && last.user == user ensures x.date != last.date {
        var k :| 0 <= k < |front| && front[k] == x;
        assert rs[k] == x;
      }
    }
  }

  lemma {:induction false} InMonthExact(rs: seq<Record>, month: string)
    requires forall i, j :: 0 <= i < j < |rs| ==> rs[i].date != rs[j].date
    ensures forall r :: r in InMonth(rs, month) <==> r in rs && InMonthText(r.date, month)
    ensures forall i, j :: 0 <= i < j < |InMonth(rs, month)| ==>
              InMonth(rs, month)[i].date != InMonth(rs, month)[j].date
  {
    if rs != [] {
      var front, last := rs[..|rs| - 1], rs[|rs| - 1];
      InMonthExact(front, month);
      assert rs == front + [last];
      forall x | x in InMonth(front, month) ensures x.date != last.date {
        var k :| 0 <= k < |front| && front[k] == x;
        assert rs[k] == x;
      }
    }
  }

  /** In every run the statistics list, newest first and without repetition,
      exactly the user's check-ins whose day lies in the requested month. */
  lemma StatisticsExact(events: seq<Event>, user: nat, year: int, month: int, r: Record, day: int)
    requires OnFourDigitDays(events) && 0 <= year <= 9999 && 1 <= month <= 12
    requires FourDigitDay(day) && r.date == DateFromUnixDays(day)
    ensures var listed := MonthRecords(Run(events).records, user, MonthText(year, month));
            var first := DayCount(Date(year, month, 1));
            && Descending(listed)
            && (r in listed <==> r in Run(events).records && r.user == user
                                 && first <= day < first + MonthLength(year, month))
  {
    RunKeeps(events);
    var rs := Run(events).records;
    OfUserExact(rs, user);
    var mine := OfUser(rs, user);
    InMonthExact(mine, MonthText(year, month));
    var chosen := InMonth(mine, MonthText(year, month));
    SortDescSorted(chosen);
    assert r in SortDesc(chosen) <==> r in multiset(SortDesc(chosen));
    assert r in chosen <==> r in multiset(chosen);
    MonthFilterExact(day, year, month);
  }

  // ------------------------------------------------------ totals over all months

  function TotalCheckins(rs: seq<Record>, user: nat): nat {
    |OfUser(rs, user)|
  }

  /** The signed 64-bit word of a number. */
  function WordI64(n: int): int {
    (n - I64_MIN) % TWO64 + I64_MIN
  }

  lemma WordOnce(a: int, b: int)
    ensures WordI64(WordI64(a) + b) == WordI64(a + b)
  {
    var q := (a - I64_MIN) / TWO64;
    assert a + b - I64_MIN == q * TWO64 + (WordI64(a) + b - I64_MIN);
  }

  function QuotaSum(rs: seq<Record>): int {
    if rs == [] then 0 else WordI64(QuotaSum(rs[..|rs| - 1]) + rs[|rs| - 1].quota)
  }

  function TotalQuota(rs: seq<Record>, user: nat): int {
    QuotaSum(OfUser(rs, user))
  }

  predicate CheckedInOn(rs: seq<Record>, user: nat, today: string) {
    exists i :: 0 <= i < |OfUser(rs, user)| && OfUser(rs, user)[i].date == today
  }

  /** The days on which the user sent a check-in. */
  function DaysOf(events: seq<Event>, user: nat): set<int> {
    if events == [] then {}
    else DaysOf(events[..|events| - 1], user)
         + var e := events[|events| - 1]; if e.Begin? && e.user == user then {e.day} else {}
  }

  lemma OfUserNext(rs: seq<Record>, user: nat)
    requires rs != []
    ensures var front, last := OfUser(rs[..|rs| - 1], user), rs[|rs| - 1];
            OfUser(rs, user) == if last.user == user then front + [last] else front
  {
  }

  lemma {:induction false} UserDates(rs: seq<Record>, user: nat, date: string)
    ensures CheckedInOn(rs, user, date) <==> Taken(rs, user, date)
  {
    if rs != [] {
      var front, last := rs[..|rs| - 1], rs[|rs| - 1];
      UserDates(front, user, date);
      OfUserNext(rs, user);
      DatePush(OfUser(front, user), last, date);
      if Taken(front, user, date) {
        var k :| 0 <= k < |front| && front[k].user == user && front[k].date == date;
        assert rs[k] == front[k];
      }
      if k :| 0 <= k < |rs| && rs[k].user == user && rs[k].date == date {
        assert k < |front| ==> front[k] == rs[k];
      }
    }
  }

  lemma DatePush(mine: seq<Record>, last: Record, date: string)
    ensures (exists i :: 0 <= i < |mine + [last]| && (mine + [last])[i].date == date)
       <==> (exists i :: 0 <= i < |mine| && mine[i].date == date) || last.date == date
  {
    var all := mine + [last];
    assert all[|mine|] == last;
    if i :| 0 <= i < |mine| && mine[i].date == date { assert all[i].date == date; }
    if i :| 0 <= i < |all| && all[i].date == date { assert i < |mine| ==> mine[i] == all[i]; }
  }

  lemma TakenAfter(s: State, e: Event, user: nat, date: string)
    ensures Taken(Step(s, e).records, user, date) <==>
            Taken(s.records, user, date) || (e.Begin? && e.user == user && DateFromUnixDays(e.day) == date)
  {
    var rs := Step(s, e).records;
    if e.Begin? && rs != s.records {
      assert rs[|s.records|].user == e.user && rs[|s.records|].date == DateFromUnixDays(e.day);
      assert forall k :: 0 <= k < |s.records| ==> rs[k] == s.records[k];
    }
  }

  /** A day is taken in the store exactly when the user sent a check-in that day. */
  lemma {:induction false} TakenExact(events: seq<Event>, user: nat, day: int)
    requires OnFourDigitDays(events) && FourDigitDay(day)
    ensures Taken(Run(events).records, user, DateFromUnixDays(day)) <==> day in DaysOf(events, user)
  {
    if events != [] {
      var before, e := events[..|events| - 1], events[|events| - 1];
      assert e in events && forall x | x in before :: x in events;
      TakenExact(before, user, day);
      TakenAfter(Run(before), e, user, DateFromUnixDays(day));
      if e.Begin? { DayTextOrder(e.day, day); }
    }
  }

  lemma CountStored(rs: seq<Record>, record: Record, user: nat)
    ensures TotalCheckins(Stored(rs, record), user)
         == TotalCheckins(rs, user) + if record.user == user && !Taken(rs, record.user, record.date) then 1 else 0
  {
    var now := Stored(rs, record);
    if !Taken(rs, record.user, record.date) {
      assert now[..|rs|] == rs;
      OfUserNext(now, user);
    }
  }

  lemma StepStores(s: State, e: Event)
    ensures Step(s, e).records
         == if e.Begin? then Stored(s.records, Record(0, e.user, DateFromUnixDays(e.day), e.quota, e.now))
            else s.records
  {
  }

  lemma DaysNext(events: seq<Event>, user: nat)
    requires events != []
    ensures var e, days := events[|events| - 1], DaysOf(events[..|events| - 1], user);
            |DaysOf(events, user)| == |days| + if e.Begin? && e.user == user && e.day !in days then 1 else 0
  {
    var e, days := events[|events| - 1], DaysOf(events[..|events| - 1], user);
    if e.Begin? && e.user == user && e.day in days { assert days + {e.day} == days; }
  }

  lemma {:induction false} CountExact(events: seq<Event>, user: nat)
    requires OnFourDigitDays(events)
    ensures TotalCheckins(Run(events).records, user) == |DaysOf(events, user)|
  {
    if events != [] {
      var before, e := events[..|events| - 1], events[|events| - 1];
      assert e in events && forall x | x in before :: x in events;
      CountExact(before, user);
      DaysNext(events, user);
      StepStores(Run(before), e);
      if e.Begin? {
        CountStored(Run(before).records, Record(0, e.user, DateFromUnixDays(e.day), e.quota, e.now), user);
        TakenExact(before, e.user, e.day);
      }
    }
  }

  // What a user was awarded, in whatever state the awards are.

  ghost function AwardSum(awards: multiset<Award>, user: nat): int
    decreases |awards|
  {
    if awards == multiset{} then 0
    else var a :| a in awards; (if a.user == user then a.quota else 0) + AwardSum(awards - multiset{a}, user)
  }

  lemma {:induction false} AwardSumTakes(awards: multiset<Award>, x: Award, user: nat)
    requires x in awards
    ensures AwardSum(awards, user) == (if x.user == user then x.quota else 0) + AwardSum(awards - multiset{x}, user)
    decreases |awards|
  {
    var a :| && a in awards
             && AwardSum(awards, user)
                == (if a.user == user then a.quota else 0) + AwardSum(awards - multiset{a}, user);
    if a != x {
      AwardSumTakes(awards - multiset{a}, x, user);
      AwardSumTakes(awards - multiset{x}, a, user);
      assert awards - multiset{a} - multiset{x} == awards - multiset{x} - multiset{a};
    }
  }

  lemma AwardSumNext(rs: seq<Record>, user: nat)
    requires rs != []
    ensures var last := rs[|rs| - 1];
            AwardSum(Awards(rs), user)
            == AwardSum(Awards(rs[..|rs| - 1]), user) + if last.user == user then last.quota else 0
  {
    var front, last := rs[..|rs| - 1], rs[|rs| - 1];
    AwardSumTakes(Awards(rs), AwardOf(last), user);
    assert Awards(rs) - multiset{AwardOf(last)} == Awards(front);
  }

  lemma TotalQuotaNext(rs: seq<Record>, user: nat)
    requires rs != []
    ensures var before, last := TotalQuota(rs[..|rs| - 1], user), rs[|rs| - 1];
            TotalQuota(rs, user) == if last.user == user then WordI64(before + last.quota) else before
  {
    var mine := OfUser(rs[..|rs| - 1], user);
    OfUserNext(rs, user);
    if rs[|rs| - 1].user == user { assert OfUser(rs, user)[..|mine|] == mine; }
  }

  /** The total shown is the word of the awards' sum. */
  predicate SumShown(rs: seq<Record>, user: nat, sum: int) {
    TotalQuota(rs, user) == WordI64(sum)
  }

  lemma SumShownNext(rs: seq<Record>, user: nat, sum: int)
    requires rs != [] && SumShown(rs[..|rs| - 1], user, sum)
    ensures SumShown(rs, user, sum + if rs[|rs| - 1].user == user then rs[|rs| - 1].quota else 0)
  {
    TotalQuotaNext(rs, user);
    WordOnce(sum, rs[|rs| - 1].quota);
  }

  lemma {:induction false} SumIsTotal(rs: seq<Record>, user: nat)
    ensures SumShown(rs, user, AwardSum(Awards(rs), user))
  {
    if rs != [] {
      SumIsTotal(rs[..|rs| - 1], user);
      AwardSumNext(rs, user);
      SumShownNext(rs, user, AwardSum(Awards(rs[..|rs| - 1]), user));
    }
  }

  /** In every run, over all months: the number of check-ins shown is the number of
      days on which the user sent one, however often; today shows as checked in
      exactly when one was sent today; and the total is the sum of that user's
      awards, pending, credited and lost, as a 64-bit word. */
  lemma TotalsExact(events: seq<Event>, user: nat, today: int)
    requires OnFourDigitDays(events) && FourDigitDay(today)
    ensures var s := Run(events);
            && TotalCheckins(s.records, user) == |DaysOf(events, user)|
            && (CheckedInOn(s.records, user, DateFromUnixDays(today)) <==> today in DaysOf(events, user))
            && TotalQuota(s.records, user) == WordI64(AwardSum(s.pending + s.credited + s.lost, user))
  {
    CountExact(events, user);
    FlagExact(events, user, today);
    AwardsExact(events, user);
  }

  lemma FlagExact(events: seq<Event>, user: nat, today: int)
    requires OnFourDigitDays(events) && FourDigitDay(today)
    ensures CheckedInOn(Run(events).records, user, DateFromUnixDays(today)) <==> today in DaysOf(events, user)
  {
    UserDates(Run(events).records, user, DateFromUnixDays(today));
    TakenExact(events, user, today);
  }

  lemma AwardsExact(events: seq<Event>, user: nat)
    requires OnFourDigitDays(events)
    ensures var s := Run(events);
            TotalQuota(s.records, user) == WordI64(AwardSum(s.pending + s.credited + s.lost, user))
  {
    RunKeeps(events);
    SumIsTotal(Run(events).records, user);
  }
}
