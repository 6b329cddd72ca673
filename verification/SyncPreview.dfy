/** A preview, a sync and a second preview: which vendors the sync creates, when
    it is refused, and which models the second preview lists. */
module SyncPreview {
  import opened Prelude
  import opened Text
  import opened ModelSync

  // ------------------------------------------------------------ the creating pass

  predicate ModelRoom(ms: seq<Model>, room: nat) {
    MaxId(ModelIds(ms)) + room <= U64_MAX
  }

  lemma CreatedIsOk(c: Catalog, m: Model, room: nat)
    requires ModelsOk(c.models) && ModelRoom(c.models, room) && room > 0 && Created(c, m).Some?
    ensures var d := Created(c, m).value;
            ModelsOk(d.models) && ModelRoom(d.models, room - 1) && d.vendors == c.vendors
  {
    var d := Created(c, m).value;
    var ids := ModelIds(c.models);
    MaxIdBounds(ids);
    assert forall i :: 0 <= i < |ids| ==> ids[i] == c.models[i].id;
    assert ModelIds(d.models)[..|ids|] == ids;
  }

  lemma SyncedOneSane(s: Sync, name: string, ups: map<string, Upstream>, known: seq<Model>, room: nat)
    requires Sane(s, room) && ModelRoom(s.catalog.models, room) && room > 0
    ensures var t := SyncedOne(s, name, ups, known); Sane(t, room - 1) && ModelRoom(t.catalog.models, room - 1)
  {
    if name in ups {
      var e := EnsuredVendor(s.catalog, s.cache, ups[name].vendor);
      EnsureExact(s.catalog, s.cache, ups[name].vendor);
      EnsureRoom(s.catalog, s.cache, ups[name].vendor, room);
      if Created(e.catalog, FromUpstream(ups[name], e.id)).Some? {
        CreatedIsOk(e.catalog, FromUpstream(ups[name], e.id), room);
      }
    }
  }

  lemma {:induction false} MissingIsSane(s: Sync, names: seq<string>, ups: map<string, Upstream>, known: seq<Model>,
                                         room: nat)
    requires Sane(s, room) && ModelRoom(s.catalog.models, room) && |names| <= room
    ensures var t := SyncedMissing(s, names, ups, known);
            Sane(t, room - |names|) && ModelRoom(t.catalog.models, room - |names|)
  {
    if names != [] {
      var n := |names| - 1;
      MissingIsSane(s, names[..n], ups, known, room);
      SyncedOneSane(SyncedMissing(s, names[..n], ups, known), names[n], ups, known, room - n);
    }
  }

  /** A model made from an upstream record agrees with it. */
  lemma FromUpstreamAgrees(u: Upstream, m: Model, vendorName: string)
    requires m == FromUpstream(u, m.vendorId).(id := m.id, name := m.name) && Trim(vendorName) == Trim(u.vendor)
    ensures Conflicts(m, u, vendorName) == []
  {
  }

  /** Looking this vendor up creates none. */
  predicate HasVendor(vs: seq<Vendor>, vendor: string) {
    Trim(vendor) == "" || VendorIndex(vs, Trim(vendor)) < |vs|
  }

  lemma HasVendorGrows(vs: seq<Vendor>, more: seq<Vendor>, vendor: string)
    requires vs <= more && HasVendor(vs, vendor)
    ensures HasVendor(more, vendor)
  {
    if Trim(vendor) != "" {
      var i := VendorIndex(vs, Trim(vendor));
      assert more[i].name == Trim(vendor);
    }
  }

  /** A model that the sync may have added: it agrees with upstream. */
  predicate AddedAt(d: Catalog, ups: map<string, Upstream>, i: nat)
    requires i < |d.models|
  {
    var m := d.models[i];
    && m.name in ups && ValidRule(m.rule) && Grounded(d.vendors, m.vendorId)
    && HasVendor(d.vendors, ups[m.name].vendor) && Reported(d, i, ups[m.name]) == []
  }

  /** The models there were are as they were, and the added ones agree with
      upstream. */
  predicate Added(c: Catalog, d: Catalog, ups: map<string, Upstream>) {
    && c.models <= d.models && c.vendors <= d.vendors
    && forall i :: |c.models| <= i < |d.models| ==> AddedAt(d, ups, i)
  }

  lemma VendorsAdded(c: Catalog, d: Catalog, next: Catalog, ups: map<string, Upstream>)
    requires Added(c, d, ups) && d.vendors <= next.vendors && VendorsOk(next.vendors) && next.models == d.models
    ensures Added(c, next, ups)
  {
    forall i | |c.models| <= i < |d.models| ensures AddedAt(next, ups, i) {
      assert AddedAt(d, ups, i);
      VendorNameGrows(d.vendors, next.vendors, d.models[i].vendorId);
      HasVendorGrows(d.vendors, next.vendors, ups[d.models[i].name].vendor);
    }
  }

  lemma ModelAdded(c: Catalog, d: Catalog, name: string, ups: map<string, Upstream>, vendorId: nat)
    requires Added(c, d, ups) && KeyedByName(ups) && name in ups && Grounded(d.vendors, vendorId)
    requires VendorName(d.vendors, vendorId) == Trim(ups[name].vendor) && HasVendor(d.vendors, ups[name].vendor)
    requires Created(d, FromUpstream(ups[name], vendorId)).Some?
    ensures Added(c, Created(d, FromUpstream(ups[name], vendorId)).value, ups)
  {
    var next := Created(d, FromUpstream(ups[name], vendorId)).value;
    var n := |d.models|;
    TrimTwice(ups[name].name);
    TrimTwice(ups[name].vendor);
    FromUpstreamAgrees(ups[name], next.models[n], Trim(ups[name].vendor));
    forall i | |c.models| <= i < n ensures AddedAt(next, ups, i) {
      assert AddedAt(d, ups, i) && next.models[i] == d.models[i];
    }
  }

  lemma EnsuredHas(c: Catalog, cache: map<string, nat>, vendor: string)
    requires CacheOk(c.vendors, cache)
    ensures HasVendor(EnsuredVendor(c, cache, vendor).catalog.vendors, vendor)
    ensures EnsuredVendor(c, cache, vendor).catalog.vendors == WithVendor(c.vendors, vendor)
  {
    var name, e := Trim(vendor), EnsuredVendor(c, cache, vendor);
    if name in cache {
      var i :| 0 <= i < |c.vendors| && c.vendors[i] == Vendor(cache[name], name);
      assert c.vendors[i].name == name;
    } else if VendorIndex(c.vendors, name) == |c.vendors| && name != "" {
      assert e.catalog.vendors[|c.vendors|].name == name;
    }
  }

  lemma SyncedOneAdds(c: Catalog, s: Sync, name: string, ups: map<string, Upstream>, known: seq<Model>, room: nat)
    requires Added(c, s.catalog, ups) && Sane(s, room) && room > 0 && KeyedByName(ups)
    ensures Added(c, SyncedOne(s, name, ups, known).catalog, ups)
    ensures SyncedOne(s, name, ups, known).catalog.vendors
         == WithVendors(s.catalog.vendors, WantedBy(name, ups, known))
  {
    var wanted := WantedBy(name, ups, known);
    if wanted != [] {
      var e := EnsuredVendor(s.catalog, s.cache, ups[name].vendor);
      EnsureExact(s.catalog, s.cache, ups[name].vendor);
      EnsuredGrounded(s.catalog, s.cache, ups[name].vendor);
      EnsuredHas(s.catalog, s.cache, ups[name].vendor);
      VendorsAdded(c, s.catalog, e.catalog, ups);
      if Created(e.catalog, FromUpstream(ups[name], e.id)).Some? { ModelAdded(c, e.catalog, name, ups, e.id); }
      assert wanted[..0] == [];
    }
  }

  /** The creating pass keeps the models there were, adds models that agree with
      upstream, and creates the vendors that its names want. */
  lemma {:induction false} MissingAdds(s: Sync, names: seq<string>, ups: map<string, Upstream>, known: seq<Model>,
                                       room: nat)
    requires Sane(s, room) && ModelRoom(s.catalog.models, room) && |names| <= room && KeyedByName(ups)
    ensures var d := SyncedMissing(s, names, ups, known).catalog;
            && Added(s.catalog, d, ups)
            && d.vendors == WithVendors(s.catalog.vendors, MissingVendors(names, ups, known))
  {
    if names != [] {
      var n := |names| - 1;
      MissingAdds(s, names[..n], ups, known, room);
      MissingIsSane(s, names[..n], ups, known, room);
      SyncedOneAdds(s.catalog, SyncedMissing(s, names[..n], ups, known), names[n], ups, known, room - n);
      WithMore(s.catalog.vendors, MissingVendors(names[..n], ups, known), WantedBy(names[n], ups, known));
    }
  }

  // ------------------------------------------------------ the vendors it creates

  /** The vendors after looking one up. */
  function WithVendor(vs: seq<Vendor>, vendor: string): seq<Vendor> {
    if HasVendor(vs, vendor) then vs else vs + [Vendor(SatSucc(MaxId(VendorIds(vs))), Trim(vendor))]
  }

  function WithVendors(vs: seq<Vendor>, wanted: seq<string>): seq<Vendor> {
    if wanted == [] then vs else WithVendor(WithVendors(vs, wanted[..|wanted| - 1]), wanted[|wanted| - 1])
  }

  lemma {:induction false} WithMore(vs: seq<Vendor>, a: seq<string>, b: seq<string>)
    ensures WithVendors(WithVendors(vs, a), b) == WithVendors(vs, a + b)
  {
    if b == [] {
      assert a + b == a;
    } else {
      WithMore(vs, a, b[..|b| - 1]);
      assert (a + b)[..|a + b| - 1] == a + b[..|b| - 1];
    }
  }

  predicate Unofficial(known: seq<Model>, name: string) {
    exists i :: 0 <= i < |known| && known[i].name == name && known[i].official == 0
  }

  /** The vendor that a missing name looks up. */
  function WantedBy(name: string, ups: map<string, Upstream>, known: seq<Model>): seq<string> {
    if name !in ups || Unofficial(known, name) then [] else [ups[name].vendor]
  }

  function MissingVendors(names: seq<string>, ups: map<string, Upstream>, known: seq<Model>): seq<string> {
    if names == [] then []
    else MissingVendors(names[..|names| - 1], ups, known) + WantedBy(names[|names| - 1], ups, known)
  }

  /** The vendors that overwrite requests look up. */
  function RequestVendors(rs: seq<Request>, ups: map<string, Upstream>, known: seq<Model>): seq<string> {
    if rs == [] then []
    else RequestVendors(rs[..|rs| - 1], ups, known)
         + if Applies(rs[|rs| - 1], ups, known) then [ups[rs[|rs| - 1].name].vendor] else []
  }

  /** How many requests are looked at: up to the first refused one. */
  function Reach(rs: seq<Request>, ups: map<string, Upstream>, known: seq<Model>): (n: nat)
    ensures n <= |rs|
  {
    var n := Stop(rs, ups, known);
    if n < |rs| then n + 1 else n
  }

  /** The names of the vendors that a sync creates, in order. */
  function NewVendors(vs: seq<Vendor>, wanted: seq<string>): seq<string> {
    if wanted == [] then []
    else
      var front, vendor := NewVendors(vs, wanted[..|wanted| - 1]), wanted[|wanted| - 1];
      if HasVendor(vs, vendor) || Trim(vendor) in front then front else front + [Trim(vendor)]
  }

  /** The vendors that the overwrite pass looks up. */
  function Looked(rs: seq<Request>, ups: map<string, Upstream>, known: seq<Model>): seq<string> {
    RequestVendors(rs[..Reach(rs, ups, known)], ups, known)
  }

  function SyncVendors(c: Catalog, names: seq<string>, rs: seq<Request>, ups: map<string, Upstream>): seq<string> {
    NewVendors(c.vendors, MissingVendors(names, ups, c.models) + Looked(rs, ups, c.models))
  }

  /** Vendors with successive ids. */
  function Numbered(names: seq<string>, id: nat): seq<Vendor> {
    seq(|names|, k requires 0 <= k < |names| => Vendor(id + k, names[k]))
  }

  function TopId(vs: seq<Vendor>): nat {
    MaxId(VendorIds(vs))
  }

  function Grown(vs: seq<Vendor>, names: seq<string>): seq<Vendor> {
    vs + Numbered(names, TopId(vs) + 1)
  }

  lemma GrownPush(vs: seq<Vendor>, names: seq<string>, name: string)
    ensures Grown(vs, names + [name]) == Grown(vs, names) + [Vendor(TopId(vs) + 1 + |names|, name)]
  {
    var id := TopId(vs) + 1;
    assert Numbered(names + [name], id) == Numbered(names, id) + [Vendor(id + |names|, name)];
  }

  lemma {:induction false} GrownTop(vs: seq<Vendor>, names: seq<string>)
    ensures TopId(Grown(vs, names)) == TopId(vs) + |names|
  {
    if names == [] {
      assert Grown(vs, names) == vs;
    } else {
      var front, name := names[..|names| - 1], names[|names| - 1];
      GrownTop(vs, front);
      assert front + [name] == names;
      GrownPush(vs, front, name);
      var all := VendorIds(Grown(vs, names));
      assert all[..|all| - 1] == VendorIds(Grown(vs, front));
    }
  }

  lemma GrownHas(vs: seq<Vendor>, names: seq<string>, vendor: string)
    ensures HasVendor(Grown(vs, names), vendor) <==> HasVendor(vs, vendor) || Trim(vendor) in names
  {
    var all, name := Grown(vs, names), Trim(vendor);
    assert forall i :: 0 <= i < |all| ==> all[i].name == if i < |vs| then vs[i].name else names[i - |vs|];
    if HasVendor(vs, vendor) {
      HasVendorGrows(vs, all, vendor);
    } else if k :| 0 <= k < |names| && names[k] == name {
      assert all[|vs| + k].name == name;
    }
  }

  lemma GrownNext(vs: seq<Vendor>, names: seq<string>, vendor: string)
    requires TopId(vs) + |names| < U64_MAX
    ensures WithVendor(Grown(vs, names), vendor)
         == Grown(vs, if HasVendor(vs, vendor) || Trim(vendor) in names then names else names + [Trim(vendor)])
  {
    GrownHas(vs, names, vendor);
    GrownTop(vs, names);
    GrownPush(vs, names, Trim(vendor));
  }

  /** Looking vendors up adds the new names, each once, with successive ids. */
  lemma {:induction false} VendorsGrow(vs: seq<Vendor>, wanted: seq<string>)
    requires TopId(vs) + |wanted| <= U64_MAX
    ensures WithVendors(vs, wanted) == Grown(vs, NewVendors(vs, wanted)) && |NewVendors(vs, wanted)| <= |wanted|
  {
    if wanted == [] {
      assert Grown(vs, []) == vs;
    } else {
      VendorsGrow(vs, wanted[..|wanted| - 1]);
      GrownNext(vs, NewVendors(vs, wanted[..|wanted| - 1]), wanted[|wanted| - 1]);
    }
  }

  /** The vendor name that an id shows once these vendors were created. */
  function ShownVendor(vs: seq<Vendor>, names: seq<string>, id: nat): string {
    if HandedOut(vs, names, id) then names[id - TopId(vs) - 1] else VendorName(vs, id)
  }

  /** The id is one of those the new vendors get. */
  predicate HandedOut(vs: seq<Vendor>, names: seq<string>, id: nat) {
    TopId(vs) < id <= TopId(vs) + |names|
  }

  lemma {:induction false} GrownName(vs: seq<Vendor>, names: seq<string>, id: nat)
    ensures VendorName(Grown(vs, names), id) == ShownVendor(vs, names, id)
  {
    if names == [] {
      assert Grown(vs, names) == vs;
    } else {
      var front, name := names[..|names| - 1], names[|names| - 1];
      GrownName(vs, front, id);
      assert front + [name] == names;
      GrownPush(vs, front, name);
      var all := Grown(vs, names);
      assert all[..|all| - 1] == Grown(vs, front);
    }
  }

  lemma {:induction false} NoVendorAbove(vs: seq<Vendor>, id: nat)
    requires id > TopId(vs)
    ensures VendorName(vs, id) == ""
  {
    if vs != [] {
      var n := |vs| - 1;
      assert VendorIds(vs)[..n] == VendorIds(vs[..n]);
      NoVendorAbove(vs[..n], id);
    }
  }

  lemma {:induction false} NewNotBlank(vs: seq<Vendor>, wanted: seq<string>)
    ensures forall x :: x in NewVendors(vs, wanted) ==> x != "" && Trim(x) == x
  {
    if wanted != [] {
      NewNotBlank(vs, wanted[..|wanted| - 1]);
      TrimTwice(wanted[|wanted| - 1]);
    }
  }

  // ------------------------------------------------------------ the whole sync

  /** Before a sync: what the store keeps of its records, and ids left for what
      the sync may create. */
  predicate Syncable(c: Catalog, room: nat) {
    && VendorsOk(c.vendors) && ModelsOk(c.models)
    && TopId(c.vendors) + room <= U64_MAX && ModelRoom(c.models, room)
  }

  /** Requests reach the models there were as before, and of the added models only
      ones that need no new vendor and are not refused. */
  lemma SameTarget(c: Catalog, d: Catalog, r: Request, ups: map<string, Upstream>)
    requires Added(c, d, ups)
    ensures Refused(r, ups, d.models) <==> Refused(r, ups, c.models)
    ensures Applies(r, ups, c.models) ==> Applies(r, ups, d.models)
    ensures Applies(r, ups, d.models) && !Applies(r, ups, c.models) ==> HasVendor(d.vendors, ups[r.name].vendor)
  {
    var i, j := Target(c.models, r.name), Target(d.models, r.name);
    assert forall k :: 0 <= k < |c.models| ==> d.models[k] == c.models[k];
    if i < |c.models| {
      assert i == j;
    } else if j < |d.models| {
      assert AddedAt(d, ups, j);
      AddedRule(d, ups, j);
    }
  }

  lemma AddedRule(d: Catalog, ups: map<string, Upstream>, i: nat)
    requires i < |d.models| && AddedAt(d, ups, i)
    ensures ups[d.models[i].name].rule == d.models[i].rule
  {
    ConflictMember(d.models[i], ups[d.models[i].name], VendorName(d.vendors, d.models[i].vendorId), NameRule);
  }

  lemma SameStop(c: Catalog, d: Catalog, rs: seq<Request>, ups: map<string, Upstream>)
    requires Added(c, d, ups)
    ensures Stop(rs, ups, d.models) == Stop(rs, ups, c.models)
  {
    forall k | 0 <= k < |rs| ensures Refused(rs[k], ups, d.models) <==> Refused(rs[k], ups, c.models) {
      SameTarget(c, d, rs[k], ups);
    }
  }

  lemma LookedAll(rs: seq<Request>, ups: map<string, Upstream>, known: seq<Model>)
    requires Stop(rs, ups, known) == |rs|
    ensures Looked(rs, ups, known) == RequestVendors(rs, ups, known)
  {
    assert rs[..|rs|] == rs;
  }

  lemma LookedPush(rs: seq<Request>, r: Request, ups: map<string, Upstream>, known: seq<Model>)
    ensures Looked(rs + [r], ups, known)
         == if Stop(rs, ups, known) < |rs| then Looked(rs, ups, known) else RequestVendors(rs + [r], ups, known)
  {
    ReachPush(rs, r, ups, known);
    Prefixes(rs, r, Reach(rs, ups, known));
  }

  lemma ReachPush(rs: seq<Request>, r: Request, ups: map<string, Upstream>, known: seq<Model>)
    ensures Reach(rs + [r], ups, known)
         == if Stop(rs, ups, known) < |rs| then Reach(rs, ups, known) else |rs| + 1
  {
    StopPush(rs, r, ups, known);
  }

  lemma Prefixes(rs: seq<Request>, r: Request, n: nat)
    requires n <= |rs|
    ensures (rs + [r])[..n] == rs[..n] && (rs + [r])[..|rs| + 1] == rs + [r]
  {
  }

  lemma RequestVendorsPush(rs: seq<Request>, r: Request, ups: map<string, Upstream>, known: seq<Model>)
    ensures RequestVendors(rs + [r], ups, known)
         == RequestVendors(rs, ups, known) + if Applies(r, ups, known) then [ups[r.name].vendor] else []
  {
    assert (rs + [r])[..|rs|] == rs;
  }

  lemma OneVendor(s: Sync, r: Request, ups: map<string, Upstream>, known: seq<Model>)
    requires CacheOk(s.catalog.vendors, s.cache) && ModelsOk(known) && SameNames(s.catalog.models, known)
    requires KeyedByName(ups)
    ensures OverwroteOne(s, r, ups, known).sync.catalog.vendors
         == if Applies(r, ups, known) then WithVendor(s.catalog.vendors, ups[r.name].vendor) else s.catalog.vendors
  {
    if Applies(r, ups, known) {
      OverwriteStep(s, r, ups, known);
      EnsuredHas(s.catalog, s.cache, ups[r.name].vendor);
    }
  }

  lemma PassStops(c: Catalog, s: Sync, rs: seq<Request>, ups: map<string, Upstream>, room: nat)
    requires Sane(s, room) && |rs| <= room && KeyedByName(ups) && Added(c, s.catalog, ups)
    ensures OverwroteAll(s, rs, ups, s.catalog.models).ok <==> Stop(rs, ups, c.models) == |rs|
  {
    OverwritePass(s, rs, ups, room);
    SameStop(c, s.catalog, rs, ups);
  }

  /** The overwrite pass creates the vendors that the requests it looks at want; a
      request for a model added just now wants none. */
  lemma {:induction false} PassVendors(c: Catalog, s: Sync, rs: seq<Request>, ups: map<string, Upstream>, room: nat)
    requires Sane(s, room) && |rs| <= room && KeyedByName(ups) && Added(c, s.catalog, ups)
    ensures OverwroteAll(s, rs, ups, s.catalog.models).sync.catalog.vendors
         == WithVendors(s.catalog.vendors, Looked(rs, ups, c.models))
  {
    if rs == [] {
      NoneLooked(ups, c.models);
    } else {
      var front, r := rs[..|rs| - 1], rs[|rs| - 1];
      assert rs == front + [r];
      PassVendors(c, s, front, ups, room);
      PassVendorsNext(c, s, front, r, ups, room);
    }
  }

  lemma NoneLooked(ups: map<string, Upstream>, known: seq<Model>)
    ensures Looked([], ups, known) == []
  {
    LookedAll([], ups, known);
  }

  lemma PassVendorsNext(c: Catalog, s: Sync, front: seq<Request>, r: Request, ups: map<string, Upstream>, room: nat)
    requires Sane(s, room) && |front| < room && KeyedByName(ups) && Added(c, s.catalog, ups)
    requires OverwroteAll(s, front, ups, s.catalog.models).sync.catalog.vendors
          == WithVendors(s.catalog.vendors, Looked(front, ups, c.models))
    ensures OverwroteAll(s, front + [r], ups, s.catalog.models).sync.catalog.vendors
         == WithVendors(s.catalog.vendors, Looked(front + [r], ups, c.models))
  {
    PassStops(c, s, front, ups, room);
    LookedPush(front, r, ups, c.models);
    PassUnfolds(s, front, r, ups, s.catalog.models);
    if OverwroteAll(s, front, ups, s.catalog.models).ok {
      LookedAll(front, ups, c.models);
      NextVendor(c, s, front, r, ups, room);
    }
  }

  lemma NextVendor(c: Catalog, s: Sync, front: seq<Request>, r: Request, ups: map<string, Upstream>, room: nat)
    requires Sane(s, room) && |front| < room && KeyedByName(ups) && Added(c, s.catalog, ups)
    requires var p := OverwroteAll(s, front, ups, s.catalog.models);
             p.ok && p.sync.catalog.vendors == WithVendors(s.catalog.vendors, RequestVendors(front, ups, c.models))
    ensures OverwroteOne(OverwroteAll(s, front, ups, s.catalog.models).sync, r, ups, s.catalog.models)
              .sync.catalog.vendors
         == WithVendors(s.catalog.vendors, RequestVendors(front + [r], ups, c.models))
  {
    var t := OverwroteAll(s, front, ups, s.catalog.models).sync;
    OverwritePass(s, front, ups, room);
    OneVendor(t, r, ups, s.catalog.models);
    SameTarget(c, s.catalog, r, ups);
    RequestVendorsPush(front, r, ups, c.models);
    var wanted := if Applies(r, ups, c.models) then [ups[r.name].vendor] else [];
    WithMore(s.catalog.vendors, RequestVendors(front, ups, c.models), wanted);
    if wanted != [] {
      assert wanted[..0] == [];
    } else if Applies(r, ups, s.catalog.models) {
      HasVendorGrows(s.catalog.vendors, t.catalog.vendors, ups[r.name].vendor);
    }
  }

  /** The catalog after the whole sync, from the one before. */
  lemma SyncedIs(c: Catalog, names: seq<string>, rs: seq<Request>, ups: map<string, Upstream>)
    returns (s: Catalog, p: Pass)
    requires Syncable(c, |names| + |rs|) && KeyedByName(ups)
    ensures p == Synced(c, names, rs, ups) && Added(c, s, ups) && VendorsOk(s.vendors)
    ensures var n := Stop(rs, ups, c.models);
            && (p.ok <==> n == |rs|) && n <= |rs| && Tracked(s, p.sync.catalog, rs[..n], ups) && Sane(p.sync, 0)
    ensures p.sync.catalog.vendors == Grown(c.vendors, SyncVendors(c, names, rs, ups))
  {
    var start := Sync(c, map[], [], [], []);
    var mid := SyncedMissing(start, names, ups, c.models);
    s, p := mid.catalog, Synced(c, names, rs, ups);
    MissingIsSane(start, names, ups, c.models, |names| + |rs|);
    MissingAdds(start, names, ups, c.models, |names| + |rs|);
    OverwritePass(mid, rs, ups, |rs|);
    SameStop(c, s, rs, ups);
    PassVendors(c, mid, rs, ups, |rs|);
    var first, second := MissingVendors(names, ups, c.models), Looked(rs, ups, c.models);
    WithMore(c.vendors, first, second);
    WantedLengths(names, rs[..Reach(rs, ups, c.models)], ups, c.models);
    VendorsGrow(c.vendors, first + second);
  }

  lemma {:induction false} WantedLengths(names: seq<string>, rs: seq<Request>, ups: map<string, Upstream>,
                                         known: seq<Model>)
    ensures |MissingVendors(names, ups, known)| <= |names| && |RequestVendors(rs, ups, known)| <= |rs|
    decreases |names| + |rs|
  {
    if names != [] { WantedLengths(names[..|names| - 1], rs, ups, known); }
    if rs != [] { WantedLengths(names, rs[..|rs| - 1], ups, known); }
  }

  /** Through the whole sync, refused or not, the vendor cache maps each name it
      holds to the id that the catalog has for it, ids and names tell records
      apart, and the new vendors are those looked up and not there, in order, with
      the ids from the highest one on. */
  lemma SyncKeepsCache(c: Catalog, names: seq<string>, rs: seq<Request>, ups: map<string, Upstream>)
    requires Syncable(c, |names| + |rs|) && KeyedByName(ups)
    ensures var t := Synced(c, names, rs, ups).sync;
            && VendorsOk(t.catalog.vendors) && CacheOk(t.catalog.vendors, t.cache) && ModelsOk(t.catalog.models)
            && t.catalog.vendors == Grown(c.vendors, SyncVendors(c, names, rs, ups))
  {
    var s, p := SyncedIs(c, names, rs, ups);
  }

  /** A sync is refused if and only if some request applies to a model there was,
      names a known field, and would leave the model without a valid name rule. */
  lemma RefusedExact(c: Catalog, names: seq<string>, rs: seq<Request>, ups: map<string, Upstream>)
    requires Syncable(c, |names| + |rs|) && KeyedByName(ups)
    ensures !Synced(c, names, rs, ups).ok <==> exists k :: 0 <= k < |rs| && Refused(rs[k], ups, c.models)
  {
    var s, p := SyncedIs(c, names, rs, ups);
    if k :| 0 <= k < |rs| && Refused(rs[k], ups, c.models) { assert Stop(rs, ups, c.models) <= k; }
  }

  /** The requests that took effect: all, or those before the first refused one. */
  function Effective(c: Catalog, rs: seq<Request>, ups: map<string, Upstream>): seq<Request> {
    rs[..Stop(rs, ups, c.models)]
  }

  /** The conflicts that model `i` has when its vendor id is read with the vendors
      that the sync creates. */
  function Expected(c: Catalog, names: seq<string>, rs: seq<Request>, ups: map<string, Upstream>, i: nat): seq<Field>
    requires i < |c.models| && c.models[i].name in ups
  {
    var m := c.models[i];
    Conflicts(m, ups[m.name], ShownVendor(c.vendors, SyncVendors(c, names, rs, ups), m.vendorId))
  }

  /** Preview, sync, preview again, for every catalog and every sync, refused or
      not. A model is listed by the second preview if and only if it was there, is
      official, and the last effective request that names a known field of it left
      out a field in which it differs, its vendor id read with the new vendors. */
  lemma SyncExact(c: Catalog, names: seq<string>, rs: seq<Request>, ups: map<string, Upstream>, i: nat)
    requires Syncable(c, |names| + |rs|) && KeyedByName(ups)
    requires i < |Synced(c, names, rs, ups).sync.catalog.models|
    ensures Conflicted(Synced(c, names, rs, ups).sync.catalog, i, ups) <==>
              && i < |c.models| && c.models[i].official != 0 && c.models[i].name in ups
              && !ListsAll(LastFields(Effective(c, rs, ups), c.models[i].name), Expected(c, names, rs, ups, i))
  {
    var s, p := SyncedIs(c, names, rs, ups);
    var d := p.sync.catalog;
    OverwriteExact(s, d, Effective(c, rs, ups), ups, i);
    if i < |c.models| {
      assert s.models[i] == c.models[i];
      GrownName(c.vendors, SyncVendors(c, names, rs, ups), c.models[i].vendorId);
    } else {
      assert AddedAt(s, ups, i);
      VendorNameGrows(s.vendors, d.vendors, s.models[i].vendorId);
    }
  }

  /** What the first preview lets expect: the model is listed, and the requests
      leave out a field it reports. */
  predicate Predicted(c: Catalog, rs: seq<Request>, ups: map<string, Upstream>, i: nat)
    requires i < |c.models|
  {
    && Conflicted(c, i, ups)
    && !ListsAll(LastFields(Effective(c, rs, ups), c.models[i].name), Reported(c, i, ups[c.models[i].name]))
  }

  /** Every difference except the vendor's is listed. */
  predicate OnlyVendorLeft(m: Model, u: Upstream, fields: seq<Field>) {
    VendorField !in fields && forall f :: f != VendorField && Differs(m, u, "", f) ==> f in fields
  }

  lemma ListsDiffering(m: Model, u: Upstream, vendorName: string, fields: seq<Field>)
    ensures ListsAll(fields, Conflicts(m, u, vendorName))
       <==> && (Trim(vendorName) != Trim(u.vendor) ==> VendorField in fields)
            && forall f :: f != VendorField && Differs(m, u, "", f) ==> f in fields
  {
    var wanted := Conflicts(m, u, vendorName);
    forall f ensures f in wanted <==> Differs(m, u, vendorName, f) { ConflictMember(m, u, vendorName, f); }
    assert forall f :: f != VendorField ==> (Differs(m, u, vendorName, f) <==> Differs(m, u, "", f));
    if ListsAll(fields, wanted) {
      forall f | f in wanted ensures f in fields { var k :| 0 <= k < |wanted| && wanted[k] == f; }
      assert Differs(m, u, vendorName, VendorField) ==> VendorField in wanted;
    }
  }

  /** When the second preview is other than the first lets expect, exactly: the
      model has the id of a vendor that the sync creates, upstream names no vendor
      or that very one, and nothing but the vendor is left unlisted. */
  lemma PreviewExact(c: Catalog, names: seq<string>, rs: seq<Request>, ups: map<string, Upstream>, i: nat)
    requires Syncable(c, |names| + |rs|) && KeyedByName(ups) && i < |c.models|
    ensures i < |Synced(c, names, rs, ups).sync.catalog.models|
    ensures var m, new' := c.models[i], SyncVendors(c, names, rs, ups);
            (Conflicted(Synced(c, names, rs, ups).sync.catalog, i, ups) <==> Predicted(c, rs, ups, i))
            <==> !(&& m.official != 0 && m.name in ups && HandedOut(c.vendors, new', m.vendorId)
                   && OnlyVendorLeft(m, ups[m.name], LastFields(Effective(c, rs, ups), m.name))
                   && Trim(ups[m.name].vendor) in {"", ShownVendor(c.vendors, new', m.vendorId)})
  {
    var s, p := SyncedIs(c, names, rs, ups);
    SyncExact(c, names, rs, ups, i);
    var m, new' := c.models[i], SyncVendors(c, names, rs, ups);
    if m.official != 0 && m.name in ups {
      var u, fields := ups[m.name], LastFields(Effective(c, rs, ups), m.name);
      ListsDiffering(m, u, VendorName(c.vendors, m.vendorId), fields);
      ListsDiffering(m, u, ShownVendor(c.vendors, new', m.vendorId), fields);
      if HandedOut(c.vendors, new', m.vendorId) {
        NoVendorAbove(c.vendors, m.vendorId);
        ShownIsNew(c, names, rs, ups, m.vendorId);
      }
    }
  }

  lemma ShownIsNew(c: Catalog, names: seq<string>, rs: seq<Request>, ups: map<string, Upstream>, id: nat)
    requires HandedOut(c.vendors, SyncVendors(c, names, rs, ups), id)
    ensures var shown := ShownVendor(c.vendors, SyncVendors(c, names, rs, ups), id); shown != "" && Trim(shown) == shown
  {
    var wanted := MissingVendors(names, ups, c.models) + Looked(rs, ups, c.models);
    NewNotBlank(c.vendors, wanted);
    assert ShownVendor(c.vendors, NewVendors(c.vendors, wanted), id) in NewVendors(c.vendors, wanted);
  }

  // -------------------------------------------------------------------- examples

  /** A model with vendor id 2 in a catalog whose one vendor has id 1, and nothing
      else in which it differs from upstream. */
  function Dangling(vendor: string, model: string): Catalog {
    Catalog([Vendor(1, vendor)], [Model(1, model, "", "", "", 2, 1, 1, 0, "")])
  }

  function Lists(model: string, vendor: string, other: string, otherVendor: string): map<string, Upstream> {
    map[model := Upstream(model, "", "", "", vendor, 1, 0, ""),
        other := Upstream(other, "", "", "", otherVendor, 1, 0, "")]
  }

  lemma OneWanted(c: Catalog, n: string, ups: map<string, Upstream>)
    requires n in ups && !Unofficial(c.models, n) && !HasVendor(c.vendors, ups[n].vendor)
    ensures SyncVendors(c, [n], [], ups) == [Trim(ups[n].vendor)]
  {
    var names, vendor := [n], ups[n].vendor;
    assert names[..0] == [];
    assert MissingVendors(names, ups, c.models) == [] + [vendor] == [vendor];
    NoneLooked(ups, c.models);
    OneNew(c.vendors, vendor);
    assert [vendor] + [] == [vendor];
  }

  lemma OneNew(vs: seq<Vendor>, vendor: string)
    requires !HasVendor(vs, vendor)
    ensures NewVendors(vs, [vendor]) == [Trim(vendor)]
  {
    var wanted := [vendor];
    assert wanted[..0] == [];
    assert NewVendors(vs, wanted[..0]) == [];
  }

  lemma DanglingVendors(a: string, b: string, m: string, n: string, v: string)
    requires Trim(b) == b != "" && a != b && m != n
    ensures SyncVendors(Dangling(a, m), [n], [], Lists(m, v, n, b)) == [b] && TopId(Dangling(a, m).vendors) == 1
  {
    var c := Dangling(a, m);
    assert !HasVendor(c.vendors, b);
    OneWanted(c, n, Lists(m, v, n, b));
    OneId(1);
    assert VendorIds(c.vendors) == [1];
  }

  lemma OneId(id: nat)
    ensures MaxId([id]) == id
  {
    assert [id][..0] == [];
    assert MaxId([]) == 0;
  }

  lemma DanglingSyncable(a: string, m: string, room: nat)
    requires room < U64_MAX
    ensures Syncable(Dangling(a, m), room)
  {
    var c := Dangling(a, m);
    OneId(1);
    assert VendorIds(c.vendors) == [1] && ModelIds(c.models) == [1];
  }

  lemma DanglingListed(a: string, m: string, ups: map<string, Upstream>, v: string)
    requires m in ups && ups[m] == Upstream(m, "", "", "", v, 1, 0, "") && Trim(v) == v
    ensures Conflicted(Dangling(a, m), 0, ups) <==> v != ""
    ensures Reported(Dangling(a, m), 0, ups[m]) == if v == "" then [] else [VendorField]
  {
    var c := Dangling(a, m);
    assert c.vendors[..0] == [] && VendorName(c.vendors, 2) == "";
  }

  /** The vendor created for another model takes the id that the model has. Where
      upstream names no vendor, a model that was not listed is listed afterwards;
      where upstream names that vendor, the reported conflict is gone, though
      nothing was requested. */
  lemma DanglingIdTaken(a: string, b: string, m: string, n: string, v: string)
    requires Trim(b) == b != "" && Trim(m) == m != "" && Trim(n) == n != "" && a != b && m != n && v in {"", b}
    ensures var c, ups := Dangling(a, m), Lists(m, v, n, b);
            var d := Synced(c, [n], [], ups).sync.catalog;
            |d.models| > 0 && (Conflicted(c, 0, ups) <==> v == b) && (Conflicted(d, 0, ups) <==> v == "")
  {
    var c, ups := Dangling(a, m), Lists(m, v, n, b);
    DanglingVendors(a, b, m, n, v);
    DanglingListed(a, m, ups, v);
    DanglingSyncable(a, m, 1);
    IdTaken(c, [n], ups, 0);
  }

  /** Without requests: a model that has the id of a vendor to be created, and
      differs at most in the vendor, is listed afterwards if and only if upstream
      names a vendor other than that one. */
  lemma IdTaken(c: Catalog, names: seq<string>, ups: map<string, Upstream>, i: nat)
    requires Syncable(c, |names|) && KeyedByName(ups) && i < |c.models|
    requires c.models[i].official != 0 && c.models[i].name in ups
    requires HandedOut(c.vendors, SyncVendors(c, names, [], ups), c.models[i].vendorId)
    requires forall f :: Differs(c.models[i], ups[c.models[i].name], "", f) ==> f == VendorField
    ensures i < |Synced(c, names, [], ups).sync.catalog.models|
    ensures var m := c.models[i];
            Conflicted(Synced(c, names, [], ups).sync.catalog, i, ups)
            <==> Trim(ups[m.name].vendor) != ShownVendor(c.vendors, SyncVendors(c, names, [], ups), m.vendorId)
  {
    var m := c.models[i];
    PreviewExact(c, names, [], ups, i);
    SyncExact(c, names, [], ups, i);
    assert Effective(c, [], ups) == [];
    assert LastFields([], m.name) == [];
    ShownIsNew(c, names, [], ups, m.vendorId);
    ListsDiffering(m, ups[m.name], ShownVendor(c.vendors, SyncVendors(c, names, [], ups), m.vendorId), []);
  }
}
