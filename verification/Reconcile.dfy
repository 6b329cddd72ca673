/** Upstream model reconciliation: detecting which models to add and remove, and
    applying an operator's choice to the channel and its pending lists. */
module Reconcile {
  import opened Text

  // ----------------------------------------------------------- lists of names

  /** `normalize_model_names`: trimmed, non-empty, first occurrences. */
  function Normalize(names: seq<string>): seq<string> {
    if names == [] then []
    else
      var front, name := Normalize(names[..|names| - 1]), Trim(names[|names| - 1]);
      if name == "" || name in front then front else front + [name]
  }

  ghost predicate Normal(names: seq<string>) {
    && (forall i :: 0 <= i < |names| ==> names[i] != "" && Trimmed(names[i]))
    && (forall i, j :: 0 <= i < j < |names| ==> names[i] != names[j])
  }

  function Elems(names: seq<string>): set<string> {
    set x | x in names
  }

  /** The names of a list that are in a set, in order. */
  function Keep(names: seq<string>, good: set<string>): seq<string> {
    if names == [] then []
    else Keep(names[..|names| - 1], good) + if names[|names| - 1] in good then [names[|names| - 1]] else []
  }

  function Subtract(base: seq<string>, removed: seq<string>): seq<string> {
    var kept := Normalize(base);
    Keep(kept, Elems(kept) - Elems(Normalize(removed)))
  }

  function Intersect(base: seq<string>, allowed: seq<string>): seq<string> {
    Keep(Normalize(base), Elems(Normalize(allowed)))
  }

  function Merge(base: seq<string>, appended: seq<string>): seq<string> {
    var first, second := Normalize(base), Normalize(appended);
    first + Keep(second, Elems(second) - Elems(first))
  }

  method NormalizeModelNames(models: seq<string>) returns (normalized: seq<string>)
    ensures normalized == Normalize(models)
  {
    var seen: set<string> := {};
    normalized := [];
    for i := 0 to |models|
      invariant normalized == Normalize(models[..i]) && seen == Elems(normalized)
    {
      assert models[..i + 1][..i] == models[..i];
      var model := Trim(models[i]);
      if model == "" || model in seen { continue; }
      seen := seen + {model};
      normalized := normalized + [model];
    }
    assert models[..|models|] == models;
  }

  method MergeModelNames(base: seq<string>, appended: seq<string>) returns (merged: seq<string>)
    ensures merged == Merge(base, appended)
  {
    var first := NormalizeModelNames(base);
    var more := NormalizeModelNames(appended);
    NormalizeNormal(appended);
    var seen, unseen := Elems(first), [];
    ghost var good := Elems(more) - Elems(first);
    for i := 0 to |more|
      invariant unseen == Keep(more[..i], good)
      invariant seen == Elems(first) + Elems(more[..i])
    {
      NextName(more, i, good);
      if more[i] !in seen {
        seen := seen + {more[i]};
        unseen := unseen + [more[i]];
      }
    }
    assert more[..|more|] == more;
    merged := first + unseen;
  }

  lemma NextName(names: seq<string>, i: nat, good: set<string>)
    requires Normal(names) && i < |names|
    ensures names[i] in Elems(names) && names[i] !in Elems(names[..i])
    ensures Elems(names[..i + 1]) == Elems(names[..i]) + {names[i]}
    ensures Keep(names[..i + 1], good) == Keep(names[..i], good) + if names[i] in good then [names[i]] else []
  {
    assert names[..i + 1][..i] == names[..i];
    assert names[..i + 1] == names[..i] + [names[i]];
  }

  // ------------------------------------------------------------- list lemmas

  lemma {:induction false} NormalizeNormal(names: seq<string>)
    ensures Normal(Normalize(names))
  {
    if names != [] {
      NormalizeNormal(names[..|names| - 1]);
      TrimShape(names[|names| - 1]);
    }
  }

  lemma {:induction false} NormalizeMembers(names: seq<string>, x: string)
    ensures x in Normalize(names) <==> x != "" && exists i :: 0 <= i < |names| && Trim(names[i]) == x
  {
    if names != [] {
      var n := |names| - 1;
      NormalizeMembers(names[..n], x);
      NormalizeNormal(names[..n]);
      if x in Normalize(names[..n]) {
        var i :| 0 <= i < n && Trim(names[..n][i]) == x;
        assert Trim(names[i]) == x;
      }
      if i :| 0 <= i < |names| && Trim(names[i]) == x {
        assert i < n ==> Trim(names[..n][i]) == x;
      }
    }
  }

  lemma {:induction false} NormalizeFixed(names: seq<string>)
    requires Normal(names)
    ensures Normalize(names) == names
  {
    if names != [] {
      var n := |names| - 1;
      NormalizeFixed(names[..n]);
      TrimFixed(names[n]);
      assert names[n] !in names[..n];
      assert names == names[..n] + [names[n]];
    }
  }

  lemma {:induction false} KeepIn(names: seq<string>, good: set<string>)
    ensures forall x :: x in Keep(names, good) <==> x in names && x in good
    ensures Normal(names) ==> Normal(Keep(names, good))
  {
    if names != [] {
      KeepIn(names[..|names| - 1], good);
      assert names == names[..|names| - 1] + [names[|names| - 1]];
    }
  }

  lemma {:induction false} KeepSame(names: seq<string>, a: set<string>, b: set<string>)
    requires forall x | x in names :: x in a <==> x in b
    ensures Keep(names, a) == Keep(names, b)
  {
    if names != [] {
      assert forall x | x in names[..|names| - 1] :: x in names;
      KeepSame(names[..|names| - 1], a, b);
    }
  }

  lemma {:induction false} KeepTwice(names: seq<string>, a: set<string>, b: set<string>)
    ensures Keep(Keep(names, a), b) == Keep(names, a * b)
  {
    if names != [] {
      var n := |names| - 1;
      KeepTwice(names[..n], a, b);
      var front := Keep(names[..n], a);
      if names[n] in a {
        assert (front + [names[n]])[..|front|] == front;
      } else {
        assert front + [] == front;
      }
    }
  }

  lemma {:induction false} KeepAppend(a: seq<string>, b: seq<string>, good: set<string>)
    ensures Keep(a + b, good) == Keep(a, good) + Keep(b, good)
  {
    if b == [] {
      assert a + b == a;
    } else {
      assert (a + b)[..|a + b| - 1] == a + b[..|b| - 1];
      KeepAppend(a, b[..|b| - 1], good);
    }
  }

  lemma {:induction false} KeepNone(names: seq<string>, good: set<string>)
    requires forall x | x in names :: x !in good
    ensures Keep(names, good) == []
  {
    if names != [] {
      assert forall x | x in names[..|names| - 1] :: x in names;
      assert names[|names| - 1] in names;
      KeepNone(names[..|names| - 1], good);
    }
  }

  // -------------------------------------------------------------- the channel

  const PATTERN := "regex:"

  /** `matches(p, m)`: the regular expression `p` is valid and matches `m`. */
  type Matcher = (string, string) -> bool

  function PatternOf(name: string): string
    requires PATTERN <= name
  {
    Trim(name[|PATTERN|..])
  }

  /** What a trimmed entry of the ignore list hides. */
  predicate Hides(e: string, m: string, matches: Matcher) {
    if PATTERN <= e then matches(PatternOf(e), m) else e == m
  }

  predicate IgnoreEntryMatches(entry: string, model: string, matches: Matcher) {
    Hides(Trim(entry), model, matches)
  }

  predicate Ignored(ignored: seq<string>, model: string, matches: Matcher) {
    exists i :: 0 <= i < |ignored| && IgnoreEntryMatches(ignored[i], model, matches)
  }

  /** What does not change between a detect and the applies that follow it. */
  datatype Setup = Setup(upstream: seq<string>, mapping: map<string, string>, matches: Matcher)

  /** `collect_pending_upstream_model_changes`. */
  function Collect(local: seq<string>, ignored: seq<string>, s: Setup): (seq<string>, seq<string>) {
    var locals, upstream := Normalize(local), Normalize(s.upstream);
    var covered := Elems(locals) + s.mapping.Values;
    (Normalize(Keep(upstream, set m | m in upstream && m !in covered && !Ignored(ignored, m, s.matches))),
     Normalize(Keep(locals, set m | m in locals && m !in s.mapping && m !in upstream)))
  }

  function DropLeading(s: string, c: char): string {
    if s != "" && s[0] == c then DropLeading(s[1..], c) else s
  }

  function DropTrailing(s: string, c: char): string {
    if s != "" && s[|s| - 1] == c then DropTrailing(s[..|s| - 1], c) else s
  }

  /** `ChannelRecord::model_list`. */
  function ModelList(models: string): seq<string> {
    Fragments(DropTrailing(DropLeading(models, ','), ','), ',')
  }

  datatype Channel = Channel(models: string, detected: seq<string>, removed: seq<string>, ignored: seq<string>)
  datatype Request = Request(add: seq<string>, ignore: seq<string>, remove: seq<string>)
  datatype Reply = Reply(added: seq<string>, removed: seq<string>, remaining: seq<string>, remainingRemove: seq<string>)

  function ApplySelected(origin: seq<string>, add: seq<string>, remove: seq<string>): seq<string> {
    var normalizedAdd := Normalize(add);
    Subtract(Merge(origin, normalizedAdd), Subtract(Normalize(remove), normalizedAdd))
  }

  /** `apply_channel_upstream_model_updates`. */
  function Applied(c: Channel, r: Request): (Channel, Reply) {
    var pendingAdd, pendingRemove := Normalize(c.detected), Normalize(c.removed);
    var add := Intersect(r.add, pendingAdd);
    var ignore := Intersect(r.ignore, pendingAdd);
    var remove := Subtract(Intersect(r.remove, pendingRemove), add);
    var origin := Normalize(ModelList(c.models));
    var next := ApplySelected(origin, add, remove);
    var merged := Merge(c.ignored, ignore);
    var ignored := if add == [] then merged else Subtract(merged, add);
    var remaining := Subtract(pendingAdd, Merge(add, ignore));
    var remainingRemove := Subtract(pendingRemove, remove);
    (Channel(if origin == next then c.models else Join(next, ','), remaining, remainingRemove, ignored),
     Reply(add, remove, remaining, remainingRemove))
  }

  /** `detect_upstream_updates`; `auto` when automatic sync is allowed and on. */
  function DetectedInto(c: Channel, s: Setup, auto: bool): Channel {
    var (add, remove) := Collect(ModelList(c.models), c.ignored, s);
    if auto && add != [] then
      Channel(Join(Merge(Normalize(ModelList(c.models)), add), ','), [], remove, c.ignored)
    else c.(detected := add, removed := remove)
  }

  /** The stored pending lists are what a detect would find now. */
  ghost predicate Fresh(c: Channel, s: Setup) {
    (c.detected, c.removed) == Collect(ModelList(c.models), c.ignored, s)
  }

  /** Every pending name can be added and ignored by itself: it holds no comma,
      and if it looks like a pattern, the pattern matches it and no other
      pending name. */
  ghost predicate Addressable(c: Channel, s: Setup) {
    && (forall u | u in c.detected :: Free(u, ','))
    && (forall u, m | u in c.detected && m in c.detected :: Hides(u, m, s.matches) <==> m == u)
  }

  /** No upstream name holds a comma or looks like a pattern. */
  ghost predicate PlainUpstream(s: Setup) {
    forall m | m in Normalize(s.upstream) :: Free(m, ',') && !(PATTERN <= m)
  }

  // ---------------------------------------------------------- the model text

  lemma {:induction false} SplitTrailing(s: string, sep: char)
    ensures Split(s + [sep], sep) == Split(s, sep) + [""]
  {
    if s == "" {
      assert s + [sep] == [sep];
    } else {
      assert (s + [sep])[1..] == s[1..] + [sep];
      SplitTrailing(s[1..], sep);
    }
  }

  lemma {:induction false} CleanEmptyEnd(parts: seq<string>)
    ensures Clean(parts + [""]) == Clean(parts)
  {
    if parts == [] {
      assert parts + [""] == [""];
    } else {
      assert (parts + [""])[1..] == parts[1..] + [""];
      CleanEmptyEnd(parts[1..]);
    }
  }

  lemma {:induction false} LeadingSeparators(s: string, sep: char)
    ensures Fragments(DropLeading(s, sep), sep) == Fragments(s, sep)
  {
    if s != "" && s[0] == sep {
      LeadingSeparators(s[1..], sep);
      assert Split(s, sep)[1..] == Split(s[1..], sep);
    }
  }

  lemma {:induction false} TrailingSeparators(s: string, sep: char)
    ensures Fragments(DropTrailing(s, sep), sep) == Fragments(s, sep)
  {
    if s != "" && s[|s| - 1] == sep {
      var t := s[..|s| - 1];
      TrailingSeparators(t, sep);
      assert s == t + [sep];
      SplitTrailing(t, sep);
      CleanEmptyEnd(Split(t, sep));
    }
  }

  /** A list of comma-free names survives being stored as text. */
  lemma ModelListOfJoin(names: seq<string>)
    requires Normal(names) && forall m | m in names :: Free(m, ',')
    ensures ModelList(Join(names, ',')) == names
  {
    var text := Join(names, ',');
    TrailingSeparators(DropLeading(text, ','), ',');
    LeadingSeparators(text, ',');
    FragmentsJoin(names, ',');
  }

  lemma NormalizedFragments(parts: seq<string>, sep: char)
    requires forall p | p in parts :: Fragment(p, sep)
    ensures forall m | m in Normalize(parts) :: Free(m, sep)
  {
    forall m | m in Normalize(parts) ensures Free(m, sep) {
      NormalizeMembers(parts, m);
      var i :| 0 <= i < |parts| && Trim(parts[i]) == m;
      assert parts[i] in parts;
      TrimFixed(parts[i]);
    }
  }

  lemma ModelNamesFree(models: string)
    ensures forall m | m in Normalize(ModelList(models)) :: Free(m, ',')
  {
    FragmentsShape(DropTrailing(DropLeading(models, ','), ','), ',');
    NormalizedFragments(ModelList(models), ',');
  }

  // --------------------------------------------------- what the operations hold

  lemma MergeHolds(a: seq<string>, b: seq<string>)
    ensures Normal(Merge(a, b))
    ensures forall x :: x in Merge(a, b) <==> x in Normalize(a) || x in Normalize(b)
  {
    var first, second := Normalize(a), Normalize(b);
    NormalizeNormal(a);
    NormalizeNormal(b);
    var appended := Keep(second, Elems(second) - Elems(first));
    KeepIn(second, Elems(second) - Elems(first));
    ConcatNormal(first, appended);
    assert forall x :: x in appended <==> x in second && x !in first;
  }

  lemma ConcatNormal(a: seq<string>, b: seq<string>)
    requires Normal(a) && Normal(b) && forall x | x in b :: x !in a
    ensures Normal(a + b)
  {
    forall i, j | 0 <= i < |a| && 0 <= j < |b| ensures a[i] != b[j] {
      assert b[j] in b;
    }
  }

  /** Subtraction leaves the normalized names of the first list that the second
      does not have, in the order of the first. */
  lemma SubtractHolds(a: seq<string>, b: seq<string>)
    ensures Normal(Subtract(a, b))
    ensures forall x :: x in Subtract(a, b) <==> x in Normalize(a) && x !in Normalize(b)
    ensures Subtract(a, b) == Keep(Normalize(a), Elems(Subtract(a, b)))
  {
    var good := Elems(Normalize(a)) - Elems(Normalize(b));
    NormalizeNormal(a);
    KeepIn(Normalize(a), good);
    KeepSame(Normalize(a), good, Elems(Subtract(a, b)));
  }

  /** Intersection leaves those both have, in the order of the first. */
  lemma IntersectHolds(a: seq<string>, b: seq<string>)
    ensures Normal(Intersect(a, b))
    ensures forall x :: x in Intersect(a, b) <==> x in Normalize(a) && x in Normalize(b)
    ensures Intersect(a, b) == Keep(Normalize(a), Elems(Intersect(a, b)))
  {
    NormalizeNormal(a);
    KeepIn(Normalize(a), Elems(Normalize(b)));
    KeepSame(Normalize(a), Elems(Normalize(b)), Elems(Intersect(a, b)));
  }

  /** The detected lists are normal sublists of upstream and of the channel. */
  lemma CollectHolds(local: seq<string>, ignored: seq<string>, s: Setup)
    ensures var (add, remove) := Collect(local, ignored, s);
            var locals, upstream := Normalize(local), Normalize(s.upstream);
            && Normal(add) && Normal(remove)
            && (forall m :: m in add <==> m in upstream && m !in locals && m !in s.mapping.Values
                                          && !Ignored(ignored, m, s.matches))
            && (forall m :: m in remove <==> m in locals && m !in s.mapping && m !in upstream)
            && add == Keep(upstream, Elems(add)) && remove == Keep(locals, Elems(remove))
  {
    var (add, remove) := Collect(local, ignored, s);
    var locals, upstream := Normalize(local), Normalize(s.upstream);
    NormalizeNormal(local);
    NormalizeNormal(s.upstream);
    var covered := Elems(locals) + s.mapping.Values;
    var goodAdd := set m | m in upstream && m !in covered && !Ignored(ignored, m, s.matches);
    var goodRemove := set m | m in locals && m !in s.mapping && m !in upstream;
    KeepIn(upstream, goodAdd);
    KeepIn(locals, goodRemove);
    NormalizeFixed(Keep(upstream, goodAdd));
    NormalizeFixed(Keep(locals, goodRemove));
    KeepSame(upstream, goodAdd, Elems(add));
    KeepSame(locals, goodRemove, Elems(remove));
  }

  /** Two detects agree when the same names pass each filter. */
  lemma CollectIs(local: seq<string>, ignored: seq<string>, s: Setup, add: seq<string>, remove: seq<string>)
    requires var locals, upstream := Normalize(local), Normalize(s.upstream);
             && add == Keep(upstream, Elems(add)) && remove == Keep(locals, Elems(remove))
             && (forall m | m in upstream :: m in add <==> m !in locals && m !in s.mapping.Values
                                                           && !Ignored(ignored, m, s.matches))
             && (forall m | m in locals :: m in remove <==> m !in s.mapping && m !in upstream)
    ensures Collect(local, ignored, s) == (add, remove)
  {
    CollectHolds(local, ignored, s);
    var (a, r) := Collect(local, ignored, s);
    KeepSame(Normalize(s.upstream), Elems(a), Elems(add));
    KeepSame(Normalize(local), Elems(r), Elems(remove));
  }

  // -------------------------------------------------------------- ignore lists

  lemma IgnoredByName(names: seq<string>, m: string, matches: Matcher)
    requires m != ""
    ensures Ignored(Normalize(names), m, matches) <==> Ignored(names, m, matches)
  {
    NormalizeNormal(names);
    var list := Normalize(names);
    if Ignored(names, m, matches) {
      var i :| 0 <= i < |names| && IgnoreEntryMatches(names[i], m, matches);
      TrimShape(names[i]);
      TrimFixed(Trim(names[i]));
      assert Trim(names[i]) != "";
      NormalizeMembers(names, Trim(names[i]));
      var k :| 0 <= k < |list| && list[k] == Trim(names[i]);
      assert IgnoreEntryMatches(list[k], m, matches);
    }
    if Ignored(list, m, matches) {
      var k :| 0 <= k < |list| && IgnoreEntryMatches(list[k], m, matches);
      NormalizeMembers(names, list[k]);
      var i :| 0 <= i < |names| && Trim(names[i]) == list[k];
      TrimFixed(list[k]);
      assert IgnoreEntryMatches(names[i], m, matches);
    }
  }

  /** In a normal list, ignoring is being hidden by an entry. */
  lemma IgnoredNormal(list: seq<string>, m: string, matches: Matcher)
    requires Normal(list)
    ensures Ignored(list, m, matches) <==> exists e | e in list :: Hides(e, m, matches)
  {
    forall i | 0 <= i < |list| ensures Trim(list[i]) == list[i] { TrimFixed(list[i]); }
    if Ignored(list, m, matches) {
      var i :| 0 <= i < |list| && IgnoreEntryMatches(list[i], m, matches);
      assert list[i] in list && Hides(list[i], m, matches);
    }
    if e :| e in list && Hides(e, m, matches) {
      var i :| 0 <= i < |list| && list[i] == e;
      assert IgnoreEntryMatches(list[i], m, matches);
    }
  }

  lemma IgnoredIsHidden(names: seq<string>, m: string, matches: Matcher)
    requires m != ""
    ensures Ignored(names, m, matches) <==> exists e | e in Normalize(names) :: Hides(e, m, matches)
  {
    NormalizeNormal(names);
    IgnoredByName(names, m, matches);
    IgnoredNormal(Normalize(names), m, matches);
  }

  /** The entries an apply leaves in the ignore list. */
  lemma IgnoreEntries(prior: seq<string>, ignore: seq<string>, add: seq<string>)
    requires Normal(ignore) && Normal(add)
    ensures var merged := Merge(prior, ignore);
            var next := if add == [] then merged else Subtract(merged, add);
            Normal(next) && forall x :: x in next <==> (x in Normalize(prior) || x in ignore) && x !in add
  {
    var merged := Merge(prior, ignore);
    NormalizeFixed(ignore);
    NormalizeFixed(add);
    MergeHolds(prior, ignore);
    NormalizeFixed(merged);
    SubtractHolds(merged, add);
  }

  /** A pending name is not an entry of the ignore list. */
  lemma PendingNotListed(c: Channel, s: Setup, u: string)
    requires Addressable(c, s) && u in c.detected && u != "" && !Ignored(c.ignored, u, s.matches)
    ensures u !in Normalize(c.ignored)
  {
    IgnoredIsHidden(c.ignored, u, s.matches);
    assert Hides(u, u, s.matches);
  }

  /** Of the pending names, an apply ignores exactly the ones chosen. */
  lemma PendingIgnoredAfter(c: Channel, s: Setup, ignore: seq<string>, add: seq<string>, next: seq<string>, m: string)
    requires Addressable(c, s) && Normal(next)
    requires forall x | x in ignore :: x in c.detected
    requires forall x :: x in next <==> (x in Normalize(c.ignored) || x in ignore) && x !in add
    requires m in c.detected && m != "" && !Ignored(c.ignored, m, s.matches)
    ensures Ignored(next, m, s.matches) <==> m in ignore && m !in add
  {
    IgnoredIsHidden(c.ignored, m, s.matches);
    IgnoredNormal(next, m, s.matches);
    if Ignored(next, m, s.matches) {
      var e :| e in next && Hides(e, m, s.matches);
      assert e in ignore;
    } else {
      assert Hides(m, m, s.matches);
    }
  }

  /** A name that was ignored stays ignored. */
  lemma IgnoredStays(c: Channel, s: Setup, next: seq<string>, m: string)
    requires Normal(next) && m != "" && Ignored(c.ignored, m, s.matches)
    requires forall x | x in Normalize(c.ignored) :: x in next
    ensures Ignored(next, m, s.matches)
  {
    IgnoredIsHidden(c.ignored, m, s.matches);
    IgnoredNormal(next, m, s.matches);
  }

  // ------------------------------------------------------------- main results

  /** What an apply selects, and the channel text it leaves. */
  lemma AppliedModels(c: Channel, s: Setup, r: Request)
    requires Fresh(c, s) && Addressable(c, s)
    ensures var (next, reply) := Applied(c, r);
            var locals, upstream := Normalize(ModelList(c.models)), Normalize(s.upstream);
            && Normal(reply.added) && Normal(reply.removed)
            && (forall x | x in reply.added :: x in c.detected && x in upstream)
            && (forall x | x in reply.removed :: x in c.removed)
            && (forall x :: x in reply.removed <==> x in Normalize(r.remove) && x in c.removed)
            && Normalize(ModelList(next.models)) == ApplySelected(locals, reply.added, reply.removed)
  {
    var (next, reply) := Applied(c, r);
    var origin := Normalize(ModelList(c.models));
    CollectHolds(ModelList(c.models), c.ignored, s);
    NormalizeFixed(c.detected);
    NormalizeFixed(c.removed);
    IntersectHolds(r.add, c.detected);
    IntersectHolds(r.remove, c.removed);
    NormalizeFixed(reply.added);
    NormalizeFixed(Intersect(r.remove, c.removed));
    SubtractHolds(Intersect(r.remove, c.removed), reply.added);
    SelectedHolds(origin, reply.added, reply.removed);
    ModelNamesFree(c.models);
    var models := ApplySelected(origin, reply.added, reply.removed);
    NormalizeNormal(ModelList(c.models));
    NormalizeFixed(origin);
    ModelListOfJoin(models);
    NormalizeFixed(models);
  }

  /** A name both added and removed stays. */
  lemma SelectedHolds(origin: seq<string>, add: seq<string>, remove: seq<string>)
    requires Normal(add) && Normal(remove)
    ensures var next := ApplySelected(origin, add, remove);
            && Normal(next)
            && (forall x :: x in next <==> (x in Normalize(origin) && (x !in remove || x in add)) || x in add)
  {
    NormalizeFixed(add);
    NormalizeFixed(remove);
    MergeHolds(origin, add);
    SubtractHolds(remove, add);
    NormalizeFixed(Merge(origin, add));
    NormalizeFixed(Subtract(remove, add));
    SubtractHolds(Merge(origin, add), Subtract(remove, add));
  }

  /** The selected names: the ones kept in the channel's order, then the added ones
      that are new, in the order of the request. */
  lemma SelectedLayout(origin: seq<string>, add: seq<string>, remove: seq<string>)
    requires Normal(add) && Normal(remove)
    ensures var next, first := ApplySelected(origin, add, remove), Normalize(origin);
            next == Keep(first, Elems(next)) + Keep(add, Elems(add) - Elems(first))
  {
    var first, next := Normalize(origin), ApplySelected(origin, add, remove);
    var appended := Keep(add, Elems(add) - Elems(first));
    var merged, gone := Merge(origin, add), Subtract(remove, add);
    NormalizeFixed(add);
    NormalizeFixed(remove);
    MergeHolds(origin, add);
    SubtractHolds(remove, add);
    NormalizeFixed(merged);
    NormalizeFixed(gone);
    SubtractHolds(merged, gone);
    KeepIn(add, Elems(add) - Elems(first));
    KeepAppend(first, appended, Elems(next));
    KeepAll(appended, Elems(next));
  }

  /** Among the names that are neither added nor upstream, the new text keeps the
      old order. */
  lemma SelectedOrder(origin: seq<string>, add: seq<string>, remove: seq<string>, good: set<string>)
    requires Normal(origin) && Normal(add) && Normal(remove)
    requires forall x | x in good :: x !in add && x !in remove
    ensures Keep(ApplySelected(origin, add, remove), good) == Keep(origin, good)
  {
    NormalizeFixed(origin);
    NormalizeFixed(add);
    NormalizeFixed(remove);
    MergeHolds(origin, add);
    SubtractHolds(remove, add);
    var merged, gone := Merge(origin, add), Subtract(remove, add);
    NormalizeFixed(merged);
    NormalizeFixed(gone);
    KeepTwice(merged, Elems(merged) - Elems(gone), good);
    KeepSame(merged, (Elems(merged) - Elems(gone)) * good, good);
    var appended := Keep(add, Elems(add) - Elems(origin));
    KeepAppend(origin, appended, good);
    KeepIn(add, Elems(add) - Elems(origin));
    KeepNone(appended, good);
  }

  /** After any apply of any chosen subsets, a new detect against the same
      upstream finds exactly the lists the apply left pending, in order. */
  lemma ApplyAgreesWithDetect(c: Channel, s: Setup, r: Request)
    requires Fresh(c, s) && Addressable(c, s)
    ensures var (next, reply) := Applied(c, r);
            && Fresh(next, s)
            && Collect(ModelList(next.models), next.ignored, s) == (reply.remaining, reply.remainingRemove)
  {
    var (next, reply) := Applied(c, r);
    var locals, upstream := Normalize(ModelList(c.models)), Normalize(s.upstream);
    AppliedModels(c, s, r);
    RemainingAdds(c, s, r);
    RemainingRemoves(c, s, r);
    CollectIs(ModelList(next.models), next.ignored, s, reply.remaining, reply.remainingRemove);
  }

  /** What is left of a sublist is still a sublist. */
  lemma SublistRest(base: seq<string>, sub: seq<string>, gone: seq<string>)
    requires Normal(sub) && sub == Keep(base, Elems(sub))
    ensures var rest := Subtract(sub, gone);
            rest == Keep(base, Elems(rest)) && forall x :: x in rest <==> x in sub && x !in Normalize(gone)
  {
    NormalizeFixed(sub);
    SubtractHolds(sub, gone);
    var rest, good := Subtract(sub, gone), Elems(sub) - Elems(Normalize(gone));
    KeepTwice(base, Elems(sub), good);
    KeepSame(base, Elems(sub) * good, Elems(rest));
  }

  /** What an apply chooses to add and to ignore, and what that leaves pending. */
  lemma Chosen(c: Channel, r: Request, upstream: seq<string>)
    requires Normal(c.detected) && c.detected == Keep(upstream, Elems(c.detected))
    ensures var add, ignore := Intersect(r.add, c.detected), Intersect(r.ignore, c.detected);
            var (next, reply) := Applied(c, r);
            && Normal(add) && Normal(ignore) && reply.added == add
            && (forall x | x in add || x in ignore :: x in c.detected)
            && reply.remaining == Keep(upstream, Elems(reply.remaining))
            && (forall x :: x in reply.remaining <==> x in c.detected && x !in add && x !in ignore)
            && Normal(next.ignored)
            && (forall x :: x in next.ignored <==> (x in Normalize(c.ignored) || x in ignore) && x !in add)
  {
    NormalizeFixed(c.detected);
    var add, ignore := Intersect(r.add, c.detected), Intersect(r.ignore, c.detected);
    IntersectHolds(r.add, c.detected);
    IntersectHolds(r.ignore, c.detected);
    NormalizeFixed(add);
    NormalizeFixed(ignore);
    MergeHolds(add, ignore);
    NormalizeFixed(Merge(add, ignore));
    SublistRest(upstream, c.detected, Merge(add, ignore));
    IgnoreEntries(c.ignored, ignore, add);
  }

  /** One upstream name after the apply. */
  lemma RemainingAt(c: Channel, s: Setup, r: Request, m: string)
    requires Fresh(c, s) && Addressable(c, s) && m in Normalize(s.upstream) && m != ""
    ensures var (next, reply) := Applied(c, r);
            m in reply.remaining <==>
            m !in Normalize(ModelList(next.models)) && m !in s.mapping.Values && !Ignored(next.ignored, m, s.matches)
  {
    CollectHolds(ModelList(c.models), c.ignored, s);
    Chosen(c, r, Normalize(s.upstream));
    UpstreamNowLocal(c, s, r, m);
    var next := Applied(c, r).0;
    if m in c.detected {
      PendingIgnoredAfter(c, s, Intersect(r.ignore, c.detected), Intersect(r.add, c.detected), next.ignored, m);
    } else if Ignored(c.ignored, m, s.matches) {
      KeptEntries(c, s, r);
      IgnoredStays(c, s, next.ignored, m);
    }
  }

  lemma KeptEntries(c: Channel, s: Setup, r: Request)
    requires Fresh(c, s) && Addressable(c, s)
    ensures forall x | x in Normalize(c.ignored) :: x in Applied(c, r).0.ignored
  {
    CollectHolds(ModelList(c.models), c.ignored, s);
    Chosen(c, r, Normalize(s.upstream));
    forall u | u in c.detected ensures u !in Normalize(c.ignored) { PendingNotListed(c, s, u); }
  }

  lemma RemainingAdds(c: Channel, s: Setup, r: Request)
    requires Fresh(c, s) && Addressable(c, s)
    ensures var (next, reply) := Applied(c, r);
            var locals, upstream := Normalize(ModelList(next.models)), Normalize(s.upstream);
            && reply.remaining == Keep(upstream, Elems(reply.remaining))
            && (forall m | m in upstream :: m in reply.remaining <==>
                  m !in locals && m !in s.mapping.Values && !Ignored(next.ignored, m, s.matches))
  {
    CollectHolds(ModelList(c.models), c.ignored, s);
    Chosen(c, r, Normalize(s.upstream));
    NormalizeNormal(s.upstream);
    forall m | m in Normalize(s.upstream)
      ensures var (next, reply) := Applied(c, r);
              m in reply.remaining <==>
              m !in Normalize(ModelList(next.models)) && m !in s.mapping.Values && !Ignored(next.ignored, m, s.matches)
    {
      RemainingAt(c, s, r, m);
    }
  }

  /** An upstream name is on the channel afterwards exactly when it was before
      or was added now. */
  lemma UpstreamNowLocal(c: Channel, s: Setup, r: Request, m: string)
    requires Fresh(c, s) && Addressable(c, s) && m in Normalize(s.upstream)
    ensures var (next, reply) := Applied(c, r);
            m in Normalize(ModelList(next.models)) <==> m in Normalize(ModelList(c.models)) || m in reply.added
  {
    var (next, reply) := Applied(c, r);
    var before := Normalize(ModelList(c.models));
    AppliedModels(c, s, r);
    CollectHolds(ModelList(c.models), c.ignored, s);
    NormalizeNormal(ModelList(c.models));
    NormalizeFixed(before);
    SelectedHolds(before, reply.added, reply.removed);
  }

  lemma RemainingRemoves(c: Channel, s: Setup, r: Request)
    requires Fresh(c, s) && Addressable(c, s)
    ensures var (next, reply) := Applied(c, r);
            var locals, upstream := Normalize(ModelList(next.models)), Normalize(s.upstream);
            && reply.remainingRemove == Keep(locals, Elems(reply.remainingRemove))
            && (forall m | m in locals :: m in reply.remainingRemove <==> m !in s.mapping && m !in upstream)
  {
    var (next, reply) := Applied(c, r);
    var before, rest := Normalize(ModelList(c.models)), reply.remainingRemove;
    AppliedModels(c, s, r);
    CollectHolds(ModelList(c.models), c.ignored, s);
    NormalizeNormal(ModelList(c.models));
    NormalizeFixed(before);
    NormalizeFixed(c.removed);
    NormalizeFixed(reply.removed);
    SublistRest(before, c.removed, reply.removed);
    SelectedOrder(before, reply.added, reply.removed, Elems(rest));
    SelectedHolds(before, reply.added, reply.removed);
  }

  /** Detecting, with or without automatic sync, leaves the lists fresh. */
  lemma DetectIsFresh(c: Channel, s: Setup, auto: bool)
    requires PlainUpstream(s)
    ensures Fresh(DetectedInto(c, s, auto), s)
  {
    var (add, remove) := Collect(ModelList(c.models), c.ignored, s);
    if auto && add != [] {
      var before := Normalize(ModelList(c.models));
      CollectHolds(ModelList(c.models), c.ignored, s);
      NormalizeNormal(ModelList(c.models));
      NormalizeFixed(before);
      NormalizeFixed(add);
      MergeHolds(before, add);
      var merged := Merge(before, add);
      ModelNamesFree(c.models);
      ModelListOfJoin(merged);
      NormalizeFixed(merged);
      var appended := Keep(add, Elems(add) - Elems(before));
      KeepIn(add, Elems(add) - Elems(before));
      KeepAppend(before, appended, Elems(remove));
      KeepNone(appended, Elems(remove));
      KeepNone(Normalize(s.upstream), Elems([]));
      CollectIs(merged, c.ignored, s, [], remove);
    }
  }

  lemma PlainIsAddressable(c: Channel, s: Setup)
    requires Fresh(c, s) && PlainUpstream(s)
    ensures Addressable(c, s)
  {
    CollectHolds(ModelList(c.models), c.ignored, s);
  }

  // ------------------------------------------- detects and applies, interleaved

  datatype Operation = Detect(auto: bool) | Apply(request: Request)

  /** What an operation makes of the channel it read. */
  function Outcome(c: Channel, s: Setup, op: Operation): Channel {
    match op
    case Detect(auto) => DetectedInto(c, s, auto)
    case Apply(r) => Applied(c, r).0
  }

  datatype Reading = Reading(seen: Channel, op: Operation)

  /** The stored channel, and what each task at work has read of it. */
  datatype World = World(channel: Channel, tasks: map<nat, Reading>)

  /** An operation reads the channel, awaits upstream or the store, and writes
      back; any others may come in between. */
  datatype Event = Read(task: nat, op: Operation) | Write(task: nat)

  /** The write is refused when the model text is no longer the one read; else it
      replaces the model text and all three lists. */
  function Stepped(w: World, s: Setup, e: Event): World {
    match e
    case Read(t, op) => w.(tasks := w.tasks[t := Reading(w.channel, op)])
    case Write(t) =>
      if t !in w.tasks then w
      else
        var Reading(seen, op) := w.tasks[t];
        World(if w.channel.models == seen.models then Outcome(seen, s, op) else w.channel, w.tasks - {t})
  }

  function After(c: Channel, s: Setup, events: seq<Event>): World {
    if events == [] then World(c, map[])
    else Stepped(After(c, s, events[..|events| - 1]), s, events[|events| - 1])
  }

  ghost predicate AllFresh(w: World, s: Setup) {
    Fresh(w.channel, s) && forall t :: t in w.tasks ==> Fresh(w.tasks[t].seen, s)
  }

  lemma OutcomeIsFresh(c: Channel, s: Setup, op: Operation)
    requires PlainUpstream(s) && Fresh(c, s)
    ensures Fresh(Outcome(c, s, op), s)
  {
    match op
    case Detect(auto) => DetectIsFresh(c, s, auto);
    case Apply(r) =>
      PlainIsAddressable(c, s);
      ApplyAgreesWithDetect(c, s, r);
  }

  /** Once a detect has made the stored lists fresh, they are at every time what
      recomputing from scratch would give, however the reads and writes of further
      detects and applies interleave. */
  lemma {:induction false} RunStaysFresh(c: Channel, s: Setup, events: seq<Event>)
    requires PlainUpstream(s) && Fresh(c, s)
    ensures AllFresh(After(c, s, events), s)
  {
    if events != [] {
      var w, e := After(c, s, events[..|events| - 1]), events[|events| - 1];
      RunStaysFresh(c, s, events[..|events| - 1]);
      if e.Write? && e.task in w.tasks {
        OutcomeIsFresh(w.tasks[e.task].seen, s, w.tasks[e.task].op);
      }
    }
  }

  lemma AfterSnoc(c: Channel, s: Setup, events: seq<Event>, e: Event)
    ensures After(c, s, events + [e]) == Stepped(After(c, s, events), s, e)
  {
    assert (events + [e])[..|events|] == events;
  }

  lemma OtherReadings(w: World, s: Setup, e: Event, t: nat)
    requires t in w.tasks && e.task != t
    ensures t in Stepped(w, s, e).tasks && Stepped(w, s, e).tasks[t] == w.tasks[t]
  {
  }

  lemma {:induction false} ReadingStays(c: Channel, s: Setup, events: seq<Event>, t: nat, op: Operation,
                                        more: seq<Event>)
    requires forall i :: 0 <= i < |more| ==> more[i].task != t
    ensures var seen, w := After(c, s, events).channel, After(c, s, events + [Read(t, op)] + more);
            t in w.tasks && w.tasks[t] == Reading(seen, op)
    decreases |more|
  {
    var start := events + [Read(t, op)];
    if more == [] {
      assert start + more == start;
      AfterSnoc(c, s, events, Read(t, op));
    } else {
      var front, last := more[..|more| - 1], more[|more| - 1];
      ReadingStays(c, s, events, t, op, front);
      assert start + more == start + front + [last];
      AfterSnoc(c, s, start + front, last);
      OtherReadings(After(c, s, start + front), s, last, t);
    }
  }

  /** What survives of an ignore applied while a detect was waiting for upstream:
      the entry is still on the list after the detect's write if and only if the
      model text changed meanwhile, for then the write is refused. */
  lemma OverlappedIgnore(c: Channel, s: Setup, events: seq<Event>, t: nat, auto: bool, more: seq<Event>, x: string)
    requires forall i :: 0 <= i < |more| ==> more[i].task != t
    requires var seen, now := After(c, s, events).channel, After(c, s, events + [Read(t, Detect(auto))] + more).channel;
             x !in seen.ignored && x in now.ignored
    ensures var seen, now := After(c, s, events).channel, After(c, s, events + [Read(t, Detect(auto))] + more).channel;
            var end := After(c, s, events + [Read(t, Detect(auto))] + more + [Write(t)]).channel;
            x in end.ignored <==> now.models != seen.models
  {
    var all := events + [Read(t, Detect(auto))] + more;
    ReadingStays(c, s, events, t, Detect(auto), more);
    AfterSnoc(c, s, all, Write(t));
  }

  /** Applying everything a detect found leaves nothing to find. */
  lemma ApplyAllIsFixpoint(c: Channel, s: Setup)
    requires Fresh(c, s) && Addressable(c, s)
    ensures var next := Applied(c, Request(c.detected, [], c.removed)).0;
            Collect(ModelList(next.models), next.ignored, s) == ([], [])
  {
    ApplyAgreesWithDetect(c, s, Request(c.detected, [], c.removed));
    CollectHolds(ModelList(c.models), c.ignored, s);
    SelectEverything(c);
  }

  lemma {:induction false} KeepAll(names: seq<string>, good: set<string>)
    requires forall x | x in names :: x in good
    ensures Keep(names, good) == names
  {
    if names != [] {
      var n := |names| - 1;
      assert forall x | x in names[..n] :: x in names;
      assert names[n] in names;
      KeepAll(names[..n], good);
      assert names == names[..n] + [names[n]];
    }
  }

  lemma SelectEverything(c: Channel)
    requires Normal(c.detected) && Normal(c.removed) && forall x | x in c.removed :: x !in c.detected
    ensures var reply := Applied(c, Request(c.detected, [], c.removed)).1;
            reply.remaining == [] && reply.remainingRemove == []
  {
    NormalizeFixed(c.detected);
    NormalizeFixed(c.removed);
    KeepAll(c.detected, Elems(c.detected));
    KeepAll(c.removed, Elems(c.removed));
    KeepAll(c.removed, Elems(c.removed) - Elems(c.detected));
    KeepNone(c.detected, {});
    KeepNone(c.removed, {});
    assert Intersect(c.detected, c.detected) == c.detected && Intersect(c.removed, c.removed) == c.removed;
    assert Intersect([], c.detected) == [] && Merge(c.detected, []) == c.detected;
    assert Elems(c.detected) - Elems(c.detected) == {} == Elems(c.removed) - Elems(c.removed);
  }

  /** After the apply, a detect finds what the apply left. */
  ghost predicate Agrees(c: Channel, s: Setup, r: Request) {
    var (next, reply) := Applied(c, r);
    Collect(ModelList(next.models), next.ignored, s) == (reply.remaining, reply.remainingRemove)
  }

  /** Exactly when every apply agrees with the next detect: when each pending name
      can be added and ignored by itself. */
  lemma ApplyAgreesExact(c: Channel, s: Setup)
    requires Fresh(c, s)
    ensures (forall r :: Agrees(c, s, r)) <==> Addressable(c, s)
  {
    if Addressable(c, s) {
      forall r ensures Agrees(c, s, r) { ApplyAgreesWithDetect(c, s, r); }
    } else if u :| u in c.detected && !Free(u, ',') {
      CommaNameBreaks(c, s, u);
      assert !Agrees(c, s, Request([u], [], []));
    } else {
      var u, m :| u in c.detected && m in c.detected && !(Hides(u, m, s.matches) <==> m == u);
      PatternNameBreaks(c, s, u, m);
      assert !Agrees(c, s, Request([], [u], []));
    }
  }

  /** A name with a comma is stored as several names: adding it leaves it missing. */
  lemma CommaNameBreaks(c: Channel, s: Setup, u: string)
    requires Fresh(c, s) && u in c.detected && !Free(u, ',')
    ensures var (next, reply) := Applied(c, Request([u], [], []));
            u !in reply.remaining && u in Collect(ModelList(next.models), next.ignored, s).0
  {
    CollectHolds(ModelList(c.models), c.ignored, s);
    AddOne(c, u);
    var next := Applied(c, Request([u], [], [])).0;
    ModelNamesFree(next.models);
    IgnoredIsHidden(c.ignored, u, s.matches);
    IgnoredNormal(next.ignored, u, s.matches);
    CollectHolds(ModelList(next.models), next.ignored, s);
  }

  /** Ignoring a pending name that looks like a pattern hides every pending name
      the pattern matches, although the apply left those pending, and does not
      hide the name itself if the pattern does not match it. */
  lemma PatternNameBreaks(c: Channel, s: Setup, u: string, m: string)
    requires Fresh(c, s) && u in c.detected && m in c.detected
    requires !(Hides(u, m, s.matches) <==> m == u)
    ensures var (next, reply) := Applied(c, Request([], [u], []));
            var found := Collect(ModelList(next.models), next.ignored, s).0;
            (m in reply.remaining <==> m != u) && (m in found <==> m == u)
  {
    CollectHolds(ModelList(c.models), c.ignored, s);
    IgnoreOne(c, u);
    var next := Applied(c, Request([], [u], [])).0;
    IgnoredIsHidden(c.ignored, m, s.matches);
    IgnoredNormal(next.ignored, m, s.matches);
    CollectHolds(ModelList(next.models), next.ignored, s);
  }

  lemma OneOf(names: seq<string>, u: string)
    requires Normal(names) && u in names
    ensures Normal([u]) && Normalize([u]) == [u] && Intersect([u], names) == [u] && Intersect([], names) == []
    ensures Merge([], [u]) == [u] && Merge([u], []) == [u]
  {
    NormalizeFixed(names);
    assert Normal([u]);
    NormalizeFixed([u]);
    KeepAll([u], Elems(names));
    assert Normalize([]) == [] && Elems([u]) - Elems([]) == {u};
    KeepAll([u], {u});
    assert Merge([], [u]) == [] + [u] == [u];
    assert Keep([], Elems([]) - Elems([u])) == [];
    assert Merge([u], []) == [u] + [];
  }

  lemma SelectNothing(origin: seq<string>)
    requires Normal(origin)
    ensures ApplySelected(origin, [], []) == origin
  {
    NormalizeFixed(origin);
    assert Normalize([]) == [] && Subtract([], []) == [];
    assert Merge(origin, []) == origin + [] == origin;
    KeepAll(origin, Elems(origin) - Elems([]));
  }

  /** The lists an apply leaves, from the names it chooses. */
  lemma ChosenLists(c: Channel, r: Request, add: seq<string>, ignore: seq<string>)
    requires Intersect(r.add, Normalize(c.detected)) == add && Intersect(r.ignore, Normalize(c.detected)) == ignore
    ensures var (next, reply) := Applied(c, r);
            && reply.remaining == Subtract(Normalize(c.detected), Merge(add, ignore))
            && next.ignored == if add == [] then Merge(c.ignored, ignore) else Subtract(Merge(c.ignored, ignore), add)
  {
  }

  lemma IgnoreOne(c: Channel, u: string)
    requires Normal(c.detected) && u in c.detected
    ensures var (next, reply) := Applied(c, Request([], [u], []));
            && (forall x :: x in reply.remaining <==> x in c.detected && x != u)
            && Normal(next.ignored) && (forall x :: x in next.ignored <==> x in Normalize(c.ignored) || x == u)
            && Normalize(ModelList(next.models)) == Normalize(ModelList(c.models))
  {
    NormalizeFixed(c.detected);
    OneOf(c.detected, u);
    ChosenLists(c, Request([], [u], []), [], [u]);
    SubtractHolds(c.detected, [u]);
    MergeHolds(c.ignored, [u]);
    NormalizeNormal(ModelList(c.models));
    SelectNothing(Normalize(ModelList(c.models)));
    assert Intersect([], Normalize(c.removed)) == [] && Subtract([], []) == [];
  }

  lemma AddOne(c: Channel, u: string)
    requires Normal(c.detected) && u in c.detected
    ensures var (next, reply) := Applied(c, Request([u], [], []));
            && u !in reply.remaining
            && Normal(next.ignored) && (forall x :: x in next.ignored <==> x in Normalize(c.ignored) && x != u)
  {
    NormalizeFixed(c.detected);
    OneOf(c.detected, u);
    ChosenLists(c, Request([u], [], []), [u], []);
    SubtractHolds(c.detected, [u]);
    AddedEntries(c.ignored, u);
  }

  lemma AddedEntries(prior: seq<string>, u: string)
    requires Normal([u])
    ensures var next := Subtract(Merge(prior, []), [u]);
            Normal(next) && forall x :: x in next <==> x in Normalize(prior) && x != u
  {
    assert Normal([]);
    IgnoreEntries(prior, [], [u]);
  }

  // ------------------------------------------------------------ in-place form

  class ModelChannel {
    var record: Channel

    constructor (c: Channel)
      ensures record == c
    {
      record := c;
    }

    /** Stores what upstream's list shows missing and surplus, and with automatic sync
        adds the missing names at once. */
    method DetectUpdates(s: Setup, auto: bool)
      modifies this
      ensures record == DetectedInto(old(record), s, auto)
      ensures PlainUpstream(s) ==> Fresh(record, s)
    {
      if PlainUpstream(s) { DetectIsFresh(record, s, auto); }
      var (add, remove) := Collect(ModelList(record.models), record.ignored, s);
      if auto && add != [] {
        var origin := NormalizeModelNames(ModelList(record.models));
        var merged := MergeModelNames(origin, add);
        record := record.(models := Join(merged, ','), detected := []);
      } else {
        record := record.(detected := add);
      }
      record := record.(removed := remove);
    }

    /** Updates the model text, the pending lists and the ignore list, and keeps
        the pending lists in step with what a detect would find. */
    method ApplyUpdates(r: Request, ghost s: Setup) returns (reply: Reply)
      modifies this
      ensures (record, reply) == Applied(old(record), r)
      ensures old(Fresh(record, s) && Addressable(record, s)) ==>
                && Fresh(record, s)
                && Collect(ModelList(record.models), record.ignored, s) == (reply.remaining, reply.remainingRemove)
    {
      if Fresh(record, s) && Addressable(record, s) { ApplyAgreesWithDetect(record, s, r); }
      var pendingAdd := NormalizeModelNames(record.detected);
      var pendingRemove := NormalizeModelNames(record.removed);
      var add := Intersect(r.add, pendingAdd);
      var ignore := Intersect(r.ignore, pendingAdd);
      var remove := Subtract(Intersect(r.remove, pendingRemove), add);
      var origin := NormalizeModelNames(ModelList(record.models));
      var next := MergeModelNames(origin, Normalize(add));
      next := Subtract(next, Subtract(Normalize(remove), Normalize(add)));
      var ignored := MergeModelNames(record.ignored, ignore);
      if add != [] { ignored := Subtract(ignored, add); }
      var consumed := MergeModelNames(add, ignore);
      var remaining := Subtract(pendingAdd, consumed);
      var remainingRemove := Subtract(pendingRemove, remove);
      if origin != next { record := record.(models := Join(next, ',')); }
      record := record.(detected := remaining, removed := remainingRemove, ignored := ignored);
      reply := Reply(add, remove, remaining, remainingRemove);
    }
  }
}
