/** What a detect and an apply do to a channel, told by its names and lists. */
module ChannelModels {
  import opened Text
  import opened Reconcile

  // --------------------------------------------------------------- normal names

  /** `from` are the positions of the names that normalizing keeps: the first
      occurrence of every trimmed name that is not blank, in order. */
  ghost predicate Firsts(names: seq<string>, kept: seq<string>, from: seq<nat>) {
    && |from| == |kept|
    && (forall i :: 0 <= i < |from| ==> from[i] < |names| && kept[i] == Trim(names[from[i]]) != "")
    && (forall i, j :: 0 <= i < j < |from| ==> from[i] < from[j])
    && (forall i, k :: 0 <= i < |from| && 0 <= k < from[i] ==> Trim(names[k]) != kept[i])
    && (forall k :: 0 <= k < |names| && Trim(names[k]) != "" ==> Trim(names[k]) in kept)
  }

  lemma FirstsSkip(names: seq<string>, kept: seq<string>, from: seq<nat>, name: string)
    requires Firsts(names, kept, from) && (Trim(name) == "" || Trim(name) in kept)
    ensures Firsts(names + [name], kept, from)
  {
    var all := names + [name];
    assert all[|names|] == name && forall k :: 0 <= k < |names| ==> all[k] == names[k];
  }

  lemma FirstsTake(names: seq<string>, kept: seq<string>, from: seq<nat>, name: string)
    requires Firsts(names, kept, from) && Trim(name) != "" && Trim(name) !in kept
    ensures Firsts(names + [name], kept + [Trim(name)], from + [|names|])
  {
    var all, more, last := names + [name], kept + [Trim(name)], from + [|names|];
    assert all[|names|] == name && forall k :: 0 <= k < |names| ==> all[k] == names[k];
    assert more[|kept|] == Trim(name) && last[|from|] == |names|;
    assert forall x :: x in kept ==> x in more;
    forall k | 0 <= k < |names| ensures Trim(all[k]) != Trim(name) {
      if Trim(names[k]) != "" { assert Trim(names[k]) in kept; }
    }
  }

  /** Normalizing keeps the first occurrence of every name, trimmed, in order. */
  lemma {:induction false} NormalizeExact(names: seq<string>) returns (from: seq<nat>)
    ensures Firsts(names, Normalize(names), from)
  {
    from := [];
    if names != [] {
      var front, name := names[..|names| - 1], names[|names| - 1];
      from := NormalizeExact(front);
      assert names == front + [name];
      if Trim(name) == "" || Trim(name) in Normalize(front) {
        FirstsSkip(front, Normalize(front), from, name);
      } else {
        FirstsTake(front, Normalize(front), from, name);
        from := from + [|front|];
      }
    }
  }

  // ------------------------------------------------------------------- a detect

  /** The channel's own names. */
  function Names(c: Channel): seq<string> {
    Normalize(ModelList(c.models))
  }

  /** An entry of the ignore list hides a name: by its pattern, or by being it. */
  ghost predicate Hidden(ignored: seq<string>, m: string, matches: Matcher) {
    exists e :: e in ignored &&
      if "regex:" <= Trim(e) then matches(Trim(Trim(e)[6..]), m) else Trim(e) == m
  }

  /** Upstream names that the channel lacks, that no mapping leads to and that no
      entry hides. */
  ghost predicate Missing(c: Channel, s: Setup, m: string) {
    && m in Normalize(s.upstream) && m !in Names(c) && !Hidden(c.ignored, m, s.matches)
    && forall k :: k in s.mapping ==> s.mapping[k] != m
  }

  /** Names of the channel that upstream lacks and that no mapping starts from. */
  ghost predicate Surplus(c: Channel, s: Setup, m: string) {
    m in Names(c) && m !in s.mapping && m !in Normalize(s.upstream)
  }

  /** A list of the names in `base` that have a property, in the order of `base`. */
  ghost predicate Lists(list: seq<string>, base: seq<string>, p: string -> bool) {
    list == Keep(base, Elems(list)) && forall m :: m in list <==> m in base && p(m)
  }

  lemma IgnoredExact(ignored: seq<string>, m: string, matches: Matcher)
    ensures Ignored(ignored, m, matches) <==> Hidden(ignored, m, matches)
  {
    if Ignored(ignored, m, matches) {
      var i :| 0 <= i < |ignored| && IgnoreEntryMatches(ignored[i], m, matches);
      assert ignored[i] in ignored;
    }
    if e :| e in ignored && if "regex:" <= Trim(e) then matches(Trim(Trim(e)[6..]), m) else Trim(e) == m {
      var i :| 0 <= i < |ignored| && ignored[i] == e;
      assert IgnoreEntryMatches(ignored[i], m, matches);
    }
  }

  /** What a detect finds: the missing names in upstream's order, and the surplus
      ones in the channel's. */
  lemma FoundExact(c: Channel, s: Setup)
    ensures var (add, remove) := Collect(ModelList(c.models), c.ignored, s);
            && Normal(add) && Normal(remove)
            && Lists(add, Normalize(s.upstream), m => Missing(c, s, m))
            && Lists(remove, Names(c), m => Surplus(c, s, m))
  {
    var (add, remove) := Collect(ModelList(c.models), c.ignored, s);
    CollectHolds(ModelList(c.models), c.ignored, s);
    forall m ensures m in add <==> m in Normalize(s.upstream) && Missing(c, s, m) {
      IgnoredExact(c.ignored, m, s.matches);
    }
  }

  /** What a detect stores, with automatic sync or without. With it, and something
      found, the channel's names are the old ones in their order followed by the
      found ones in upstream's order, and nothing is pending to be added; otherwise
      the model text is as it was and the found names are pending. The surplus names
      are pending to be removed, and the ignore list is as it was. */
  ghost predicate Detects(c: Channel, s: Setup, auto: bool, found: seq<string>, next: Channel) {
    && Lists(found, Normalize(s.upstream), m => Missing(c, s, m))
    && Lists(next.removed, Names(c), m => Surplus(c, s, m))
    && next.ignored == c.ignored
    && (!auto || found == [] ==> next.models == c.models && next.detected == found)
    && (auto && found != [] ==>
          && next.detected == [] && next.models == Join(Names(c) + found, ',')
          && ((forall u :: u in found ==> Free(u, ',')) ==> Names(next) == Names(c) + found))
  }

  lemma MergeFound(c: Channel, found: seq<string>)
    requires Normal(found) && forall m :: m in found ==> m !in Names(c)
    ensures Merge(Names(c), found) == Names(c) + found && Normal(Names(c) + found)
  {
    NormalizeNormal(ModelList(c.models));
    NormalizeFixed(Names(c));
    NormalizeFixed(found);
    KeepAll(found, Elems(found) - Elems(Names(c)));
    MergeHolds(Names(c), found);
  }

  lemma JoinedNames(c: Channel, found: seq<string>)
    requires Normal(Names(c) + found) && found != [] && forall u :: u in found ==> Free(u, ',')
    ensures Normalize(ModelList(Join(Names(c) + found, ','))) == Names(c) + found
  {
    ModelNamesFree(c.models);
    ModelListOfJoin(Names(c) + found);
    NormalizeFixed(Names(c) + found);
  }

  lemma DetectExact(c: Channel, s: Setup, auto: bool) returns (found: seq<string>)
    ensures Detects(c, s, auto, found, DetectedInto(c, s, auto))
  {
    FoundExact(c, s);
    found := Collect(ModelList(c.models), c.ignored, s).0;
    if auto && found != [] {
      MergeFound(c, found);
      if forall u :: u in found ==> Free(u, ',') { JoinedNames(c, found); }
    }
  }

  /** So does a detect in a run, when nothing comes between its read and its write. */
  lemma DetectStores(c: Channel, s: Setup, events: seq<Event>, t: nat, auto: bool) returns (found: seq<string>)
    ensures var before, all := After(c, s, events).channel, events + [Read(t, Detect(auto))] + [Write(t)];
            Detects(before, s, auto, found, After(c, s, all).channel)
  {
    AfterSnoc(c, s, events, Read(t, Detect(auto)));
    AfterSnoc(c, s, events + [Read(t, Detect(auto))], Write(t));
    found := DetectExact(After(c, s, events).channel, s, auto);
  }

  // -------------------------------------------------------------------- an apply

  lemma Chooses(asked: seq<string>, pending: seq<string>)
    ensures Normal(Intersect(asked, Normalize(pending)))
    ensures Lists(Intersect(asked, Normalize(pending)), Normalize(asked), m => m in Normalize(pending))
  {
    NormalizeNormal(pending);
    NormalizeFixed(Normalize(pending));
    IntersectHolds(asked, Normalize(pending));
  }

  lemma ChoosesBut(asked: seq<string>, pending: seq<string>, add: seq<string>)
    requires Normal(add)
    ensures var removed := Subtract(Intersect(asked, Normalize(pending)), add);
            Normal(removed) && Lists(removed, Normalize(asked), m => m in Normalize(pending) && m !in add)
  {
    var wanted := Intersect(asked, Normalize(pending));
    var removed := Subtract(wanted, add);
    Chooses(asked, pending);
    NormalizeFixed(wanted);
    NormalizeFixed(add);
    SubtractHolds(wanted, add);
    KeepTwice(Normalize(asked), Elems(wanted), Elems(removed));
    KeepSame(Normalize(asked), Elems(wanted) * Elems(removed), Elems(removed));
  }

  lemma Remains(pending: seq<string>, gone: seq<string>)
    requires Normal(gone)
    ensures Lists(Subtract(Normalize(pending), gone), Normalize(pending), m => m !in gone)
  {
    NormalizeNormal(pending);
    NormalizeFixed(Normalize(pending));
    NormalizeFixed(gone);
    SubtractHolds(Normalize(pending), gone);
  }

  lemma RemainsOfBoth(pending: seq<string>, add: seq<string>, ignore: seq<string>)
    ensures var consumed := Merge(Intersect(add, Normalize(pending)), Intersect(ignore, Normalize(pending)));
            Lists(Subtract(Normalize(pending), consumed), Normalize(pending),
                  m => m !in Normalize(add) && m !in Normalize(ignore))
  {
    var a, b := Intersect(add, Normalize(pending)), Intersect(ignore, Normalize(pending));
    Chooses(add, pending);
    Chooses(ignore, pending);
    NormalizeFixed(a);
    NormalizeFixed(b);
    MergeHolds(a, b);
    Remains(pending, Merge(a, b));
  }

  /** What an apply chooses, from the request and the pending lists. */
  lemma ApplyChooses(c: Channel, r: Request)
    ensures var reply := Applied(c, r).1;
            && Normal(reply.added) && Normal(reply.removed)
            && Lists(reply.added, Normalize(r.add), m => m in Normalize(c.detected))
            && Lists(reply.removed, Normalize(r.remove), m => m in Normalize(c.removed) && m !in reply.added)
            && Lists(reply.remaining, Normalize(c.detected), m => m !in Normalize(r.add) && m !in Normalize(r.ignore))
            && Lists(reply.remainingRemove, Normalize(c.removed), m => m !in reply.removed)
  {
    var add := Intersect(r.add, Normalize(c.detected));
    Chooses(r.add, c.detected);
    ChoosesBut(r.remove, c.removed, add);
    RemainsOfBoth(c.detected, r.add, r.ignore);
    Remains(c.removed, Subtract(Intersect(r.remove, Normalize(c.removed)), add));
  }

  /** What an apply stores. The names are the channel's own that are not removed, in
      their order, then the added ones that are new, in the request's order. The
      ignore list has the old entries and the pending names to be ignored, without the
      added ones. The pending lists are what the reply says. The text changes only if
      the names do. */
  lemma ApplyStores(c: Channel, r: Request)
    ensures var (next, reply) := Applied(c, r);
            var kept := ApplySelected(Names(c), reply.added, reply.removed);
            && kept == Keep(Names(c), Elems(kept)) + Keep(reply.added, Elems(reply.added) - Elems(Names(c)))
            && (forall m :: m in kept <==> m in reply.added || (m in Names(c) && m !in reply.removed))
            && next.models == (if kept == Names(c) then c.models else Join(kept, ','))
            && next.detected == reply.remaining && next.removed == reply.remainingRemove
            && Normal(next.ignored)
            && (forall m :: m in next.ignored <==>
                  && (m in Normalize(c.ignored) || (m in Normalize(r.ignore) && m in Normalize(c.detected)))
                  && m !in reply.added)
  {
    var (next, reply) := Applied(c, r);
    ApplyChooses(c, r);
    NormalizeNormal(ModelList(c.models));
    NormalizeFixed(Names(c));
    SelectedLayout(Names(c), reply.added, reply.removed);
    SelectedHolds(Names(c), reply.added, reply.removed);
    NormalizeNormal(c.detected);
    NormalizeFixed(Normalize(c.detected));
    IntersectHolds(r.ignore, Normalize(c.detected));
    IgnoreEntries(c.ignored, Intersect(r.ignore, Normalize(c.detected)), reply.added);
  }
}
