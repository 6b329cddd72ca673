/** Synchronising the model catalog with an upstream list: create what is
    missing, overwrite what was chosen, creating vendors on the way. */
module ModelSync {
  import opened Prelude
  import opened Text

  datatype Vendor = Vendor(id: nat, name: string)

  datatype Model = Model(id: nat, name: string, description: string, icon: string, tags: string, vendorId: nat,
                         status: int, official: int, rule: int, endpoints: string)

  datatype Upstream = Upstream(name: string, description: string, icon: string, tags: string, vendor: string,
                               status: int, rule: int, endpoints: string)

  datatype Catalog = Catalog(vendors: seq<Vendor>, models: seq<Model>)

  // ------------------------------------------------------------- catalog store

  function VendorIds(vs: seq<Vendor>): seq<nat> {
    seq(|vs|, i requires 0 <= i < |vs| => vs[i].id)
  }

  function ModelIds(ms: seq<Model>): seq<nat> {
    seq(|ms|, i requires 0 <= i < |ms| => ms[i].id)
  }

  function VendorIndex(vs: seq<Vendor>, name: string): nat {
    FirstIndex(vs, (v: Vendor) => v.name == name)
  }

  function ModelIndex(ms: seq<Model>, id: nat): nat {
    FirstIndex(ms, (m: Model) => m.id == id)
  }

  /** The name shown for a vendor id: empty for none, the last listed otherwise. */
  function VendorName(vs: seq<Vendor>, id: nat): string {
    if vs == [] then ""
    else if vs[|vs| - 1].id == id then vs[|vs| - 1].name
    else VendorName(vs[..|vs| - 1], id)
  }

  predicate Named(ms: seq<Model>, name: string) {
    exists i :: 0 <= i < |ms| && ms[i].name == name
  }

  predicate ValidRule(rule: int) {
    0 <= rule <= 3
  }

  /** Creating a model whose id is still to be given. */
  function Created(c: Catalog, m: Model): Option<Catalog> {
    var name := Trim(m.name);
    if name == "" || !ValidRule(m.rule) || Named(c.models, name) then None
    else Some(c.(models := c.models + [m.(id := SatSucc(MaxId(ModelIds(c.models))), name := name)]))
  }

  /** Updating the model with `m`'s id, all fields. */
  function Updated(c: Catalog, m: Model): Option<Catalog> {
    var i := ModelIndex(c.models, m.id);
    var name := Trim(m.name);
    if i == |c.models| || m.id == 0 || name == "" || !ValidRule(m.rule) then None
    else if exists k :: 0 <= k < |c.models| && c.models[k].id != m.id && c.models[k].name == name then None
    else Some(c.(models := c.models[i := m.(name := name)]))
  }

  // ------------------------------------------------------------- vendor cache

  datatype Ensured = Ensured(catalog: Catalog, cache: map<string, nat>, id: nat)

  /** The id of a vendor by name: from the cache, the catalog, or newly created. */
  function EnsuredVendor(c: Catalog, cache: map<string, nat>, vendor: string): Ensured {
    var name := Trim(vendor);
    if name == "" then Ensured(c, cache, 0)
    else if name in cache then Ensured(c, cache, cache[name])
    else
      var i := VendorIndex(c.vendors, name);
      if i < |c.vendors| then Ensured(c, cache[name := c.vendors[i].id], c.vendors[i].id)
      else
        var id := SatSucc(MaxId(VendorIds(c.vendors)));
        Ensured(c.(vendors := c.vendors + [Vendor(id, name)]), cache[name := id], id)
  }

  /** What the store keeps of vendors: ids and names tell them apart, no id is 0. */
  predicate VendorsOk(vs: seq<Vendor>) {
    && (forall i :: 0 <= i < |vs| ==> vs[i].id != 0)
    && (forall i, j :: 0 <= i < j < |vs| ==> vs[i].id != vs[j].id && vs[i].name != vs[j].name)
  }

  /** The cache maps names of catalog vendors to their ids. */
  predicate CacheOk(vs: seq<Vendor>, cache: map<string, nat>) {
    forall name :: name in cache ==> Vendor(cache[name], name) in vs
  }

  lemma {:induction false} VendorNameIs(vs: seq<Vendor>, v: Vendor)
    requires VendorsOk(vs) && v in vs
    ensures VendorName(vs, v.id) == v.name
  {
    var n := |vs| - 1;
    var k :| 0 <= k < |vs| && vs[k] == v;
    if k < n {
      assert vs[..n][k] == v;
      VendorNameIs(vs[..n], v);
    }
  }

  lemma {:induction false} NoVendorZero(vs: seq<Vendor>)
    requires VendorsOk(vs)
    ensures VendorName(vs, 0) == ""
  {
    if vs != [] { NoVendorZero(vs[..|vs| - 1]); }
  }

  predicate Room(vs: seq<Vendor>) {
    MaxId(VendorIds(vs)) < U64_MAX
  }

  lemma FreshVendor(vs: seq<Vendor>, name: string)
    requires VendorsOk(vs) && Room(vs) && VendorIndex(vs, name) == |vs|
    ensures VendorsOk(vs + [Vendor(SatSucc(MaxId(VendorIds(vs))), name)])
    ensures forall i :: 0 <= i < |vs| ==> vs[i].id < SatSucc(MaxId(VendorIds(vs)))
  {
    MaxIdBounds(VendorIds(vs));
    assert forall i :: 0 <= i < |vs| ==> VendorIds(vs)[i] == vs[i].id;
  }

  /** The id that comes back names the vendor asked for, the cache stays right,
      and vendors are only ever added. */
  lemma EnsureExact(c: Catalog, cache: map<string, nat>, vendor: string)
    requires VendorsOk(c.vendors) && CacheOk(c.vendors, cache) && Room(c.vendors)
    ensures var e := EnsuredVendor(c, cache, vendor);
            && VendorsOk(e.catalog.vendors) && CacheOk(e.catalog.vendors, e.cache)
            && VendorName(e.catalog.vendors, e.id) == Trim(vendor)
            && c.vendors <= e.catalog.vendors && e.catalog.models == c.models
  {
    var name := Trim(vendor);
    var e := EnsuredVendor(c, cache, vendor);
    if name == "" {
      NoVendorZero(c.vendors);
    } else if name in cache {
      VendorNameIs(c.vendors, Vendor(cache[name], name));
    } else {
      var i := VendorIndex(c.vendors, name);
      if i < |c.vendors| {
        assert c.vendors[i] == Vendor(e.id, name);
        VendorNameIs(c.vendors, c.vendors[i]);
      } else {
        FreshVendor(c.vendors, name);
        assert Vendor(e.id, name) in e.catalog.vendors;
        assert forall v :: v in c.vendors ==> v in e.catalog.vendors;
        VendorNameIs(e.catalog.vendors, Vendor(e.id, name));
      }
    }
  }

  // ---------------------------------------------------------------- conflicts

  function ChooseStatus(primary: int, fallback: int): int {
    if primary != 0 then primary else if fallback != 0 then fallback else 1
  }

  datatype Field = Description | Icon | Tags | VendorField | NameRule | Status | Endpoints

  function FieldName(f: Field): string {
    match f
    case Description => "description"
    case Icon => "icon"
    case Tags => "tags"
    case VendorField => "vendor"
    case NameRule => "name_rule"
    case Status => "status"
    case Endpoints => "endpoints"
  }

  /** The field a request names, in any case and spacing. */
  function FieldOf(text: string): Option<Field> {
    var name := Lower(Trim(text));
    if name == "description" then Some(Description)
    else if name == "icon" then Some(Icon)
    else if name == "tags" then Some(Tags)
    else if name == "vendor" then Some(VendorField)
    else if name == "name_rule" then Some(NameRule)
    else if name == "status" then Some(Status)
    else if name == "endpoints" then Some(Endpoints)
    else None
  }

  /** The names a preview reports are names a request may use. */
  lemma FieldNamesParse(f: Field)
    ensures FieldOf(FieldName(f)) == Some(f)
  {
    TrimFixed(FieldName(f));
    assert Lower(FieldName(f)) == FieldName(f);
  }

  function TextConflict(f: Field, local: string, upstream: string): seq<Field> {
    if Trim(local) == Trim(upstream) then [] else [f]
  }

  /** The fields in which a local model, shown with this vendor name, differs. */
  function Conflicts(m: Model, u: Upstream, vendorName: string): seq<Field> {
    TextConflict(Description, m.description, u.description)
    + TextConflict(Icon, m.icon, u.icon)
    + TextConflict(Tags, m.tags, u.tags)
    + TextConflict(VendorField, vendorName, u.vendor)
    + (if m.rule != u.rule then [NameRule] else [])
    + (if m.status != ChooseStatus(u.status, m.status) then [Status] else [])
  }

  /** The fields a request's names stand for; unknown names are passed over. */
  function FieldsOf(texts: seq<string>): seq<Field> {
    if texts == [] then []
    else FieldsOf(texts[..|texts| - 1])
         + match FieldOf(texts[|texts| - 1]) case Some(f) => [f] case None => []
  }

  function Overwritten(m: Model, u: Upstream, vendorId: nat, fields: seq<Field>): Model {
    if fields == [] then m
    else Written(Overwritten(m, u, vendorId, fields[..|fields| - 1]), u, vendorId, fields[|fields| - 1])
  }

  function Written(m: Model, u: Upstream, vendorId: nat, f: Field): Model {
    match f
    case Description => m.(description := u.description)
    case Icon => m.(icon := u.icon)
    case Tags => m.(tags := u.tags)
    case VendorField => m.(vendorId := vendorId)
    case NameRule => m.(rule := u.rule)
    case Status => m.(status := ChooseStatus(u.status, m.status))
    case Endpoints => m.(endpoints := u.endpoints)
  }

  /** What overwriting makes of a model, field by field. */
  predicate IsOverwritten(r: Model, m: Model, u: Upstream, vendorId: nat, listed: set<Field>) {
    && r.id == m.id && r.name == m.name && r.official == m.official
    && r.description == (if Description in listed then u.description else m.description)
    && r.icon == (if Icon in listed then u.icon else m.icon)
    && r.tags == (if Tags in listed then u.tags else m.tags)
    && r.vendorId == (if VendorField in listed then vendorId else m.vendorId)
    && r.rule == (if NameRule in listed then u.rule else m.rule)
    && r.status == (if Status in listed then ChooseStatus(u.status, m.status) else m.status)
    && r.endpoints == (if Endpoints in listed then u.endpoints else m.endpoints)
  }

  /** A field ends up with the upstream value if it is listed, in any order and
      however often, and is left alone otherwise. */
  lemma {:induction false} OverwrittenExact(m: Model, u: Upstream, vendorId: nat, fields: seq<Field>)
    ensures IsOverwritten(Overwritten(m, u, vendorId, fields), m, u, vendorId, set f | f in fields)
  {
    if fields != [] {
      var front, last := fields[..|fields| - 1], fields[|fields| - 1];
      OverwrittenExact(m, u, vendorId, front);
      WrittenNext(Overwritten(m, u, vendorId, front), m, u, vendorId, (set f | f in front), last);
      assert fields == front + [last];
      assert (set f | f in fields) == (set f | f in front) + {last};
    }
  }

  lemma WrittenNext(r: Model, m: Model, u: Upstream, vendorId: nat, listed: set<Field>, last: Field)
    requires IsOverwritten(r, m, u, vendorId, listed)
    ensures IsOverwritten(Written(r, u, vendorId, last), m, u, vendorId, listed + {last})
  {
  }

  /** Naming a field in the request, in any case and spacing, lists it. */
  lemma {:induction false} FieldNamed(texts: seq<string>, i: nat, f: Field)
    requires i < |texts| && FieldOf(texts[i]) == Some(f)
    ensures f in FieldsOf(texts)
  {
    if i < |texts| - 1 {
      assert texts[..|texts| - 1][i] == texts[i];
      FieldNamed(texts[..|texts| - 1], i, f);
    }
  }

  predicate ListsAll(fields: seq<Field>, wanted: seq<Field>) {
    forall i :: 0 <= i < |wanted| ==> wanted[i] in fields
  }

  /** Whether a preview reports this field. */
  predicate Differs(m: Model, u: Upstream, vendorName: string, f: Field) {
    match f
    case Description => Trim(m.description) != Trim(u.description)
    case Icon => Trim(m.icon) != Trim(u.icon)
    case Tags => Trim(m.tags) != Trim(u.tags)
    case VendorField => Trim(vendorName) != Trim(u.vendor)
    case NameRule => m.rule != u.rule
    case Status => m.status != ChooseStatus(u.status, m.status)
    case Endpoints => false
  }

  lemma TextConflictMember(f: Field, local: string, upstream: string, x: Field)
    ensures x in TextConflict(f, local, upstream) <==> x == f && Trim(local) != Trim(upstream)
  {
  }

  lemma ConflictMember(m: Model, u: Upstream, vendorName: string, f: Field)
    ensures f in Conflicts(m, u, vendorName) <==> Differs(m, u, vendorName, f)
  {
    TextConflictMember(Description, m.description, u.description, f);
    TextConflictMember(Icon, m.icon, u.icon, f);
    TextConflictMember(Tags, m.tags, u.tags, f);
    TextConflictMember(VendorField, vendorName, u.vendor, f);
  }

  /** A field of the overwritten model differs exactly if it did and is not listed. */
  lemma DiffersAfter(r: Model, m: Model, u: Upstream, vendorId: nat, fields: seq<Field>, before: string, after: string,
                     f: Field)
    requires IsOverwritten(r, m, u, vendorId, set f | f in fields)
    requires if VendorField in fields then Trim(after) == Trim(u.vendor) else after == before
    ensures Differs(r, u, after, f) <==> Differs(m, u, before, f) && f !in fields
  {
    assert f in (set f | f in fields) <==> f in fields;
  }

  /** Overwriting leaves nothing to report if and only if it listed everything
      that was reported. */
  lemma ClearExact(r: Model, m: Model, u: Upstream, vendorId: nat, fields: seq<Field>, before: string, after: string)
    requires IsOverwritten(r, m, u, vendorId, set f | f in fields)
    requires if VendorField in fields then Trim(after) == Trim(u.vendor) else after == before
    ensures Conflicts(r, u, after) == [] <==> ListsAll(fields, Conflicts(m, u, before))
  {
    var was, now := Conflicts(m, u, before), Conflicts(r, u, after);
    forall f ensures f in now <==> f in was && f !in fields {
      ConflictMember(m, u, before, f);
      ConflictMember(r, u, after, f);
      DiffersAfter(r, m, u, vendorId, fields, before, after, f);
    }
    NoneLeft(was, now, fields);
  }

  lemma NoneLeft(was: seq<Field>, now: seq<Field>, fields: seq<Field>)
    requires forall f :: f in now <==> f in was && f !in fields
    ensures now == [] <==> ListsAll(fields, was)
  {
    if now == [] {
      forall i | 0 <= i < |was| ensures was[i] in fields { assert was[i] in was; }
    } else {
      assert now[0] in now;
      var i :| 0 <= i < |was| && was[i] == now[0];
    }
  }

  // --------------------------------------------------------------- the two passes

  datatype Sync = Sync(catalog: Catalog, cache: map<string, nat>, created: seq<string>, skipped: seq<string>,
                       updated: seq<string>)

  datatype Request = Request(name: string, fields: seq<string>)

  function FromUpstream(u: Upstream, vendorId: nat): Model {
    Model(0, Trim(u.name), u.description, u.icon, u.tags, vendorId, ChooseStatus(u.status, 1), 1, u.rule, u.endpoints)
  }

  /** One missing name: skipped, or created with its vendor. */
  function SyncedOne(s: Sync, name: string, ups: map<string, Upstream>, known: seq<Model>): Sync {
    if name !in ups || (exists i :: 0 <= i < |known| && known[i].name == name && known[i].official == 0)
    then s.(skipped := s.skipped + [name])
    else
      var e := EnsuredVendor(s.catalog, s.cache, ups[name].vendor);
      match Created(e.catalog, FromUpstream(ups[name], e.id))
      case Some(c) => s.(catalog := c, cache := e.cache, created := s.created + [name])
      case None => s.(catalog := e.catalog, cache := e.cache, skipped := s.skipped + [name])
  }

  function SyncedMissing(s: Sync, names: seq<string>, ups: map<string, Upstream>, known: seq<Model>): Sync {
    if names == [] then s
    else SyncedOne(SyncedMissing(s, names[..|names| - 1], ups, known), names[|names| - 1], ups, known)
  }

  /** The first official model with the name. */
  function Target(ms: seq<Model>, name: string): nat {
    FirstIndex(ms, (m: Model) => m.name == name && m.official != 0)
  }

  predicate Applies(r: Request, ups: map<string, Upstream>, known: seq<Model>) {
    r.name in ups && Target(known, r.name) < |known|
  }

  /** What the overwrite pass has stored, and whether it went on to the end: it
      stops at the first record that the store refuses. */
  datatype Pass = Pass(sync: Sync, ok: bool)

  /** One overwrite request, on the record as it was when the pass began. The
      vendor is ensured first, and stays when the record is refused. */
  function OverwroteOne(s: Sync, r: Request, ups: map<string, Upstream>, known: seq<Model>): Pass {
    if !Applies(r, ups, known) then Pass(s, true)
    else
      var u, fields := ups[r.name], FieldsOf(r.fields);
      var e := EnsuredVendor(s.catalog, s.cache, u.vendor);
      var t := s.(catalog := e.catalog, cache := e.cache);
      if fields == [] then Pass(t, true)
      else match Updated(e.catalog, Overwritten(known[Target(known, r.name)], u, e.id, fields))
        case Some(c) => Pass(t.(catalog := c, updated := s.updated + [r.name]), true)
        case None => Pass(t, false)
  }

  function OverwroteAll(s: Sync, rs: seq<Request>, ups: map<string, Upstream>, known: seq<Model>): Pass {
    if rs == [] then Pass(s, true)
    else
      var p := OverwroteAll(s, rs[..|rs| - 1], ups, known);
      if p.ok then OverwroteOne(p.sync, rs[|rs| - 1], ups, known) else p
  }

  /** The whole sync: create the missing models, then overwrite as asked. */
  function Synced(c: Catalog, names: seq<string>, rs: seq<Request>, ups: map<string, Upstream>): Pass {
    var s := SyncedMissing(Sync(c, map[], [], [], []), names, ups, c.models);
    OverwroteAll(s, rs, ups, s.catalog.models)
  }

  // ----------------------------------------------------------- the missing names

  function Times(s: seq<string>, x: string): nat {
    if s == [] then 0 else Times(s[..|s| - 1], x) + if s[|s| - 1] == x then 1 else 0
  }

  lemma TimesPush(s: seq<string>, y: string, x: string)
    ensures Times(s + [y], x) == Times(s, x) + if y == x then 1 else 0
  {
    assert (s + [y])[..|s|] == s;
  }

  lemma {:induction false} TimesIn(s: seq<string>, x: string)
    ensures Times(s, x) > 0 <==> x in s
    ensures (forall j, k :: 0 <= j < k < |s| ==> s[j] != s[k]) ==> Times(s, x) <= 1
  {
    if s != [] {
      var n := |s| - 1;
      TimesIn(s[..n], x);
      assert s == s[..n] + [s[n]];
    }
  }

  /** Every name that is worked through is listed once more, somewhere. */
  lemma {:induction false} MissingCounts(s: Sync, names: seq<string>, ups: map<string, Upstream>, known: seq<Model>,
                                         x: string)
    ensures var t := SyncedMissing(s, names, ups, known);
            Times(t.created, x) + Times(t.skipped, x) == Times(s.created, x) + Times(s.skipped, x) + Times(names, x)
  {
    if names != [] {
      var name := names[|names| - 1];
      MissingCounts(s, names[..|names| - 1], ups, known, x);
      var t := SyncedMissing(s, names[..|names| - 1], ups, known);
      CountNext(t, SyncedOne(t, name, ups, known), name, x);
    }
  }

  /** One name goes to the end of one of the lists. */
  predicate ListedOnce(t: Sync, r: Sync, name: string) {
    || (r.created == t.created + [name] && r.skipped == t.skipped)
    || (r.created == t.created && r.skipped == t.skipped + [name])
  }

  lemma CountNext(t: Sync, r: Sync, name: string, x: string)
    requires ListedOnce(t, r, name)
    ensures Times(r.created, x) + Times(r.skipped, x)
         == Times(t.created, x) + Times(t.skipped, x) + if name == x then 1 else 0
  {
    TimesPush(t.created, name, x);
    TimesPush(t.skipped, name, x);
  }

  /** Each missing name ends in exactly one of the two lists, and nothing else is
      in either. */
  lemma MissingPartition(c: Catalog, names: seq<string>, ups: map<string, Upstream>, x: string)
    requires forall j, k :: 0 <= j < k < |names| ==> names[j] != names[k]
    ensures var t := SyncedMissing(Sync(c, map[], [], [], []), names, ups, c.models);
            && (x in names <==> x in t.created || x in t.skipped)
            && !(x in t.created && x in t.skipped)
            && Times(t.created, x) <= 1 && Times(t.skipped, x) <= 1
  {
    var t := SyncedMissing(Sync(c, map[], [], [], []), names, ups, c.models);
    MissingCounts(Sync(c, map[], [], [], []), names, ups, c.models, x);
    TimesIn(names, x);
    TimesIn(t.created, x);
    TimesIn(t.skipped, x);
  }

  /** Upstream's models by trimmed name; blank names are dropped, the last of
      several wins. */
  function UpstreamMap(models: seq<Upstream>): (ups: map<string, Upstream>)
    ensures KeyedByName(ups) && forall k :: k in ups ==> ups[k] in models
    ensures forall i :: 0 <= i < |models| && Trim(models[i].name) != "" ==> Trim(models[i].name) in ups
  {
    if models == [] then map[]
    else
      var u, front := models[|models| - 1], UpstreamMap(models[..|models| - 1]);
      if Trim(u.name) == "" then front else front[Trim(u.name) := u]
  }

  /** Keyed by trimmed names, none of them blank. */
  predicate KeyedByName(ups: map<string, Upstream>) {
    forall k :: k in ups ==> Trim(ups[k].name) == k != ""
  }

  lemma {:induction false} CreatedAreCatalogued(s: Sync, names: seq<string>, ups: map<string, Upstream>,
                                                known: seq<Model>)
    requires KeyedByName(ups) && forall x :: x in s.created ==> Named(s.catalog.models, x)
    ensures var t := SyncedMissing(s, names, ups, known);
            && (forall x :: x in t.created ==> Named(t.catalog.models, x))
            && s.catalog.models <= t.catalog.models
  {
    if names != [] {
      var name := names[|names| - 1];
      CreatedAreCatalogued(s, names[..|names| - 1], ups, known);
      var t := SyncedMissing(s, names[..|names| - 1], ups, known);
      CreatedNext(t, name, ups, known);
    }
  }

  lemma CreatedNext(t: Sync, name: string, ups: map<string, Upstream>, known: seq<Model>)
    requires KeyedByName(ups) && forall x :: x in t.created ==> Named(t.catalog.models, x)
    ensures var r := SyncedOne(t, name, ups, known);
            (forall x :: x in r.created ==> Named(r.catalog.models, x)) && t.catalog.models <= r.catalog.models
  {
    var r := SyncedOne(t, name, ups, known);
    var n := |t.catalog.models|;
    if r.created != t.created {
      TrimTwice(ups[name].name);
      assert r.catalog.models[n].name == name;
    }
    forall x | x in r.created ensures Named(r.catalog.models, x) {
      if x in t.created {
        var i :| 0 <= i < n && t.catalog.models[i].name == x;
        assert r.catalog.models[i].name == x;
      }
    }
  }

  // ------------------------------------------------------------- the overwrites

  predicate ModelsOk(ms: seq<Model>) {
    && (forall i :: 0 <= i < |ms| ==> ms[i].id != 0)
    && (forall i, j :: 0 <= i < j < |ms| ==> ms[i].id != ms[j].id && ms[i].name != ms[j].name)
  }

  /** The model's vendor is none or one of the catalog's. */
  predicate Grounded(vs: seq<Vendor>, id: nat) {
    id == 0 || exists i :: 0 <= i < |vs| && vs[i].id == id
  }

  /** What a preview reports of the model at index `i`. */
  function Reported(c: Catalog, i: nat, u: Upstream): seq<Field>
    requires i < |c.models|
  {
    Conflicts(c.models[i], u, VendorName(c.vendors, c.models[i].vendorId))
  }

  /** New vendors rename no model's vendor. */
  lemma VendorNameGrows(vs: seq<Vendor>, more: seq<Vendor>, id: nat)
    requires vs <= more && VendorsOk(more) && Grounded(vs, id)
    ensures VendorName(more, id) == VendorName(vs, id) && Grounded(more, id)
  {
    assert VendorsOk(vs) by {
      assert forall i :: 0 <= i < |vs| ==> vs[i] == more[i];
    }
    if id == 0 {
      NoVendorZero(vs);
      NoVendorZero(more);
    } else {
      var i :| 0 <= i < |vs| && vs[i].id == id;
      assert more[i] == vs[i];
      VendorNameIs(vs, vs[i]);
      VendorNameIs(more, more[i]);
    }
  }

  /** The state between overwrites: everything is named apart, the cache is right
      and there is room for more vendors. */
  predicate Sane(s: Sync, room: nat) {
    && VendorsOk(s.catalog.vendors) && CacheOk(s.catalog.vendors, s.cache)
    && ModelsOk(s.catalog.models) && MaxId(VendorIds(s.catalog.vendors)) + room <= U64_MAX
  }

  lemma EnsureRoom(c: Catalog, cache: map<string, nat>, vendor: string, room: nat)
    requires MaxId(VendorIds(c.vendors)) + room <= U64_MAX && room > 0
    ensures MaxId(VendorIds(EnsuredVendor(c, cache, vendor).catalog.vendors)) + room - 1 <= U64_MAX
  {
    var e := EnsuredVendor(c, cache, vendor);
    if e.catalog.vendors != c.vendors {
      assert VendorIds(e.catalog.vendors)[..|c.vendors|] == VendorIds(c.vendors);
    }
  }

  lemma EnsuredGrounded(c: Catalog, cache: map<string, nat>, vendor: string)
    requires CacheOk(c.vendors, cache)
    ensures var e := EnsuredVendor(c, cache, vendor); Grounded(e.catalog.vendors, e.id)
  {
    var name := Trim(vendor);
    var e := EnsuredVendor(c, cache, vendor);
    if name != "" {
      if name in cache {
        assert Vendor(cache[name], name) in c.vendors;
      } else if VendorIndex(c.vendors, name) == |c.vendors| {
        assert e.catalog.vendors[|c.vendors|].id == e.id;
      }
    }
  }

  /** The same models by id and name. */
  predicate SameNames(a: seq<Model>, b: seq<Model>) {
    |a| == |b| && forall i :: 0 <= i < |a| ==> a[i].id == b[i].id && a[i].name == b[i].name
  }

  lemma EnsureExactModels(c: Catalog, cache: map<string, nat>, vendor: string)
    ensures EnsuredVendor(c, cache, vendor).catalog.models == c.models
  {
  }

  /** The name rule that an overwritten record would have. */
  function RuleAfter(m: Model, u: Upstream, fields: seq<Field>): int {
    if NameRule in fields then u.rule else m.rule
  }

  /** The store refuses a request's record: it applies, names a known field, and
      the record would not have a valid name rule. */
  predicate Refused(r: Request, ups: map<string, Upstream>, known: seq<Model>) {
    && Applies(r, ups, known) && FieldsOf(r.fields) != []
    && !ValidRule(RuleAfter(known[Target(known, r.name)], ups[r.name], FieldsOf(r.fields)))
  }

  lemma UpdatedExact(c: Catalog, m: Model, known: seq<Model>, i: nat)
    requires SameNames(c.models, known) && ModelsOk(known) && i < |known|
    requires m.id == known[i].id && m.name == known[i].name && Trim(m.name) == m.name != ""
    ensures Updated(c, m) == if ValidRule(m.rule) then Some(c.(models := c.models[i := m])) else None
  {
    assert c.models[i].id == m.id;
    assert ModelIndex(c.models, m.id) == i;
    assert m.(name := Trim(m.name)) == m;
  }

  /** The models after one overwrite: the target as overwritten from the record
      the pass began with, the others as they were. */
  lemma OverwriteStep(s: Sync, r: Request, ups: map<string, Upstream>, known: seq<Model>)
    requires ModelsOk(known) && SameNames(s.catalog.models, known) && KeyedByName(ups) && Applies(r, ups, known)
    ensures var p, i, fields := OverwroteOne(s, r, ups, known), Target(known, r.name), FieldsOf(r.fields);
            var e, models := EnsuredVendor(s.catalog, s.cache, ups[r.name].vendor), p.sync.catalog.models;
            && (p.ok <==> !Refused(r, ups, known))
            && p.sync.catalog.vendors == e.catalog.vendors && p.sync.cache == e.cache
            && SameNames(models, known)
            && (forall j :: 0 <= j < |known| && j != i ==> models[j] == s.catalog.models[j])
            && (if fields == [] || !p.ok then models[i] == s.catalog.models[i]
                else IsOverwritten(models[i], known[i], ups[r.name], e.id, set f | f in fields))
  {
    var i, fields := Target(known, r.name), FieldsOf(r.fields);
    var e := EnsuredVendor(s.catalog, s.cache, ups[r.name].vendor);
    EnsureExactModels(s.catalog, s.cache, ups[r.name].vendor);
    if fields != [] {
      var m := Overwritten(known[i], ups[r.name], e.id, fields);
      OverwrittenExact(known[i], ups[r.name], e.id, fields);
      TrimTwice(ups[r.name].name);
      assert NameRule in (set f | f in fields) <==> NameRule in fields;
      UpdatedExact(e.catalog, m, known, i);
      WrittenBack(e.catalog, m, known, i);
    }
  }

  lemma WrittenBack(c: Catalog, m: Model, known: seq<Model>, i: nat)
    requires SameNames(c.models, known) && i < |known| && m.id == known[i].id && m.name == known[i].name
    ensures SameNames(c.models[i := m], known) && c.models[i := m][i] == m
    ensures forall j :: 0 <= j < |known| && j != i ==> c.models[i := m][j] == c.models[j]
  {
  }

  lemma SameNamesOk(a: seq<Model>, b: seq<Model>)
    requires SameNames(a, b) && ModelsOk(b)
    ensures ModelsOk(a)
  {
  }

  lemma OverwriteIsSane(s: Sync, r: Request, ups: map<string, Upstream>, known: seq<Model>, room: nat)
    requires Sane(s, room) && room > 0 && ModelsOk(known) && SameNames(s.catalog.models, known) && KeyedByName(ups)
    ensures var t := OverwroteOne(s, r, ups, known).sync;
            && Sane(t, room - 1) && s.catalog.vendors <= t.catalog.vendors && SameNames(t.catalog.models, known)
  {
    if Applies(r, ups, known) {
      OverwriteStep(s, r, ups, known);
      EnsureExact(s.catalog, s.cache, ups[r.name].vendor);
      EnsureRoom(s.catalog, s.cache, ups[r.name].vendor, room);
      SameNamesOk(OverwroteOne(s, r, ups, known).sync.catalog.models, known);
    }
  }

  /** The fields of the last listing of a model that names a known field: an
      overwrite starts from the record the pass began with, so earlier listings
      of the model leave nothing behind. */
  function LastFields(rs: seq<Request>, name: string): seq<Field> {
    if rs == [] then []
    else
      var last := rs[|rs| - 1];
      if last.name == name && FieldsOf(last.fields) != [] then FieldsOf(last.fields)
      else LastFields(rs[..|rs| - 1], name)
  }

  lemma LastFieldsPush(rs: seq<Request>, r: Request, name: string)
    ensures LastFields(rs + [r], name)
         == if r.name == name && FieldsOf(r.fields) != [] then FieldsOf(r.fields) else LastFields(rs, name)
  {
    assert (rs + [r])[..|rs|] == rs;
  }

  function Asked(m: Model, rs: seq<Request>): seq<Field> {
    if m.official != 0 then LastFields(rs, m.name) else []
  }

  /** Model `i` of `d` is model `i` of `c` with these fields overwritten. */
  predicate WrittenAs(c: Catalog, d: Catalog, i: nat, u: Upstream, fields: seq<Field>)
    requires i < |c.models| && i < |d.models|
  {
    && IsOverwritten(d.models[i], c.models[i], u, d.models[i].vendorId, set f | f in fields)
    && (VendorField in fields ==>
          && Grounded(d.vendors, d.models[i].vendorId)
          && VendorName(d.vendors, d.models[i].vendorId) == Trim(u.vendor))
  }

  predicate TrackedAt(c: Catalog, d: Catalog, rs: seq<Request>, ups: map<string, Upstream>, i: nat)
    requires i < |c.models| && i < |d.models|
  {
    var m := c.models[i];
    if m.name in ups then WrittenAs(c, d, i, ups[m.name], Asked(m, rs)) else d.models[i] == m
  }

  /** The catalog after the requests `rs`, model by model. */
  predicate Tracked(c: Catalog, d: Catalog, rs: seq<Request>, ups: map<string, Upstream>) {
    && SameNames(d.models, c.models) && c.vendors <= d.vendors
    && forall i :: 0 <= i < |c.models| ==> TrackedAt(c, d, rs, ups, i)
  }

  lemma VendorsTracked(c: Catalog, d: Catalog, next: Catalog, rs: seq<Request>, ups: map<string, Upstream>, i: nat)
    requires i < |c.models| && i < |d.models| && i < |next.models| && next.models[i] == d.models[i]
    requires d.vendors <= next.vendors && VendorsOk(next.vendors) && TrackedAt(c, d, rs, ups, i)
    ensures TrackedAt(c, next, rs, ups, i)
  {
    var m := c.models[i];
    if m.name in ups && VendorField in Asked(m, rs) {
      VendorNameGrows(d.vendors, next.vendors, d.models[i].vendorId);
    }
  }

  /** A model that a request leaves alone is still as asked. */
  lemma TrackedStays(c: Catalog, d: Catalog, next: Catalog, rs: seq<Request>, r: Request, ups: map<string, Upstream>,
                     i: nat)
    requires i < |c.models| && i < |d.models| && i < |next.models| && next.models[i] == d.models[i]
    requires d.vendors <= next.vendors && VendorsOk(next.vendors) && TrackedAt(c, d, rs, ups, i)
    requires c.models[i].name in ups ==> Asked(c.models[i], rs + [r]) == Asked(c.models[i], rs)
    ensures TrackedAt(c, next, rs + [r], ups, i)
  {
    VendorsTracked(c, d, next, rs, ups, i);
  }

  lemma TrackedAtNext(c: Catalog, t: Sync, rs: seq<Request>, r: Request, ups: map<string, Upstream>, room: nat, i: nat)
    requires Tracked(c, t.catalog, rs, ups) && Sane(t, room) && room > 0 && ModelsOk(c.models) && KeyedByName(ups)
    requires OverwroteOne(t, r, ups, c.models).ok && i < |c.models|
    requires |OverwroteOne(t, r, ups, c.models).sync.catalog.models| == |c.models|
    ensures TrackedAt(c, OverwroteOne(t, r, ups, c.models).sync.catalog, rs + [r], ups, i)
  {
    var w := OverwroteOne(t, r, ups, c.models).sync;
    OverwriteIsSane(t, r, ups, c.models, room);
    LastFieldsPush(rs, r, c.models[i].name);
    if Applies(r, ups, c.models) {
      OverwriteStep(t, r, ups, c.models);
      if i == Target(c.models, r.name) && FieldsOf(r.fields) != [] {
        EnsureExact(t.catalog, t.cache, ups[r.name].vendor);
        EnsuredGrounded(t.catalog, t.cache, ups[r.name].vendor);
        return;
      }
    }
    TrackedStays(c, t.catalog, w.catalog, rs, r, ups, i);
  }

  lemma TrackedNext(c: Catalog, t: Sync, rs: seq<Request>, r: Request, ups: map<string, Upstream>, room: nat)
    requires Tracked(c, t.catalog, rs, ups) && Sane(t, room) && room > 0 && ModelsOk(c.models) && KeyedByName(ups)
    requires OverwroteOne(t, r, ups, c.models).ok
    ensures Tracked(c, OverwroteOne(t, r, ups, c.models).sync.catalog, rs + [r], ups)
  {
    var d := OverwroteOne(t, r, ups, c.models).sync.catalog;
    OverwriteIsSane(t, r, ups, c.models, room);
    forall i | 0 <= i < |c.models| ensures TrackedAt(c, d, rs + [r], ups, i) {
      TrackedAtNext(c, t, rs, r, ups, room, i);
    }
  }

  /** A refused request changes no model: only its vendor may be new. */
  lemma RefusalTracked(c: Catalog, t: Sync, rs: seq<Request>, r: Request, ups: map<string, Upstream>, room: nat)
    requires Tracked(c, t.catalog, rs, ups) && Sane(t, room) && room > 0 && ModelsOk(c.models) && KeyedByName(ups)
    requires !OverwroteOne(t, r, ups, c.models).ok
    ensures OverwroteOne(t, r, ups, c.models).sync.catalog.models == t.catalog.models
    ensures Tracked(c, OverwroteOne(t, r, ups, c.models).sync.catalog, rs, ups)
  {
    var d := OverwroteOne(t, r, ups, c.models).sync.catalog;
    OverwriteStep(t, r, ups, c.models);
    EnsureExact(t.catalog, t.cache, ups[r.name].vendor);
    forall i | 0 <= i < |c.models| ensures TrackedAt(c, d, rs, ups, i) {
      VendorsTracked(c, t.catalog, d, rs, ups, i);
    }
  }

  /** The first request that is refused, if any. */
  function Stop(rs: seq<Request>, ups: map<string, Upstream>, known: seq<Model>): nat {
    FirstIndex(rs, (r: Request) => Refused(r, ups, known))
  }

  lemma StopPush(rs: seq<Request>, r: Request, ups: map<string, Upstream>, known: seq<Model>)
    ensures var n := Stop(rs, ups, known);
            Stop(rs + [r], ups, known) == if n < |rs| then n else if Refused(r, ups, known) then n else n + 1
  {
    var all := rs + [r];
    assert all[|rs|] == r && forall k :: 0 <= k < |rs| ==> all[k] == rs[k];
  }

  /** What is known of the pass over `rs`, which stopped at `n` if it stopped. */
  ghost predicate PassOk(c: Catalog, p: Pass, rs: seq<Request>, n: nat, ups: map<string, Upstream>, room: int) {
    && n <= |rs| && (p.ok <==> n == |rs|)
    && Tracked(c, p.sync.catalog, rs[..n], ups) && room >= 0 && Sane(p.sync, room)
  }

  lemma PassPush(c: Catalog, p: Pass, rs: seq<Request>, n: nat, r: Request, ups: map<string, Upstream>, room: nat)
    requires PassOk(c, p, rs, n, ups, room) && room > 0 && ModelsOk(c.models) && KeyedByName(ups)
    ensures var next := if p.ok then OverwroteOne(p.sync, r, ups, c.models) else p;
            var stop := if n < |rs| then n else if Refused(r, ups, c.models) then n else n + 1;
            PassOk(c, next, rs + [r], stop, ups, room - 1)
  {
    var all := rs + [r];
    assert all[..n] == rs[..n];
    if p.ok {
      assert rs[..n] == rs && all[..n + 1] == all;
      PassNext(c, p.sync, rs, r, ups, room);
    }
  }

  lemma PassStart(s: Sync, ups: map<string, Upstream>, room: nat)
    requires Sane(s, room)
    ensures PassOk(s.catalog, Pass(s, true), [], 0, ups, room)
  {
    var none: seq<Request> := [];
    assert none[..0] == none;
    assert forall i :: 0 <= i < |s.catalog.models| ==> Asked(s.catalog.models[i], none) == [];
  }

  lemma PassUnfolds(s: Sync, rs: seq<Request>, r: Request, ups: map<string, Upstream>, known: seq<Model>)
    ensures var p := OverwroteAll(s, rs, ups, known);
            OverwroteAll(s, rs + [r], ups, known) == if p.ok then OverwroteOne(p.sync, r, ups, known) else p
  {
    assert (rs + [r])[..|rs|] == rs;
  }

  /** The overwrite pass: it goes on to the end if and only if no request is
      refused. The models then have the upstream values of exactly the fields that
      their last listing names; after a refusal, that of the listings before it. */
  lemma {:induction false} OverwritePass(s: Sync, rs: seq<Request>, ups: map<string, Upstream>, room: nat)
    requires Sane(s, room) && |rs| <= room && KeyedByName(ups)
    ensures PassOk(s.catalog, OverwroteAll(s, rs, ups, s.catalog.models), rs, Stop(rs, ups, s.catalog.models), ups,
                   room - |rs|)
  {
    if rs == [] {
      PassStart(s, ups, room);
    } else {
      var front, r, known := rs[..|rs| - 1], rs[|rs| - 1], s.catalog.models;
      OverwritePass(s, front, ups, room);
      StopPush(front, r, ups, known);
      PassUnfolds(s, front, r, ups, known);
      PassPush(s.catalog, OverwroteAll(s, front, ups, known), front, Stop(front, ups, known), r, ups, room - |front|);
      assert front + [r] == rs;
    }
  }

  lemma PassNext(c: Catalog, t: Sync, rs: seq<Request>, r: Request, ups: map<string, Upstream>, room: nat)
    requires Tracked(c, t.catalog, rs, ups) && Sane(t, room) && room > 0 && ModelsOk(c.models) && KeyedByName(ups)
    ensures var p := OverwroteOne(t, r, ups, c.models);
            && (p.ok <==> !Refused(r, ups, c.models)) && Sane(p.sync, room - 1)
            && Tracked(c, p.sync.catalog, if p.ok then rs + [r] else rs, ups)
  {
    OverwriteIsSane(t, r, ups, c.models, room);
    if Applies(r, ups, c.models) { OverwriteStep(t, r, ups, c.models); }
    if OverwroteOne(t, r, ups, c.models).ok {
      TrackedNext(c, t, rs, r, ups, room);
    } else {
      RefusalTracked(c, t, rs, r, ups, room);
    }
  }

  /** A preview lists the model at index `i`. */
  predicate Conflicted(c: Catalog, i: nat, ups: map<string, Upstream>)
    requires i < |c.models|
  {
    c.models[i].official != 0 && c.models[i].name in ups && Reported(c, i, ups[c.models[i].name]) != []
  }

  /** A model is in conflict after the pass if and only if its last listing leaves
      out a field in which it differed, its vendor id read with the vendors there
      are in the end. */
  lemma OverwriteExact(c: Catalog, d: Catalog, rs: seq<Request>, ups: map<string, Upstream>, i: nat)
    requires Tracked(c, d, rs, ups) && i < |c.models| == |d.models|
    ensures var m := c.models[i];
            Conflicted(d, i, ups) <==>
            && m.official != 0 && m.name in ups
            && !ListsAll(LastFields(rs, m.name), Conflicts(m, ups[m.name], VendorName(d.vendors, m.vendorId)))
  {
    var m, r := c.models[i], d.models[i];
    assert TrackedAt(c, d, rs, ups, i);
    if m.official != 0 && m.name in ups {
      TrimTwice(ups[m.name].vendor);
      ClearExact(r, m, ups[m.name], r.vendorId, LastFields(rs, m.name), VendorName(d.vendors, m.vendorId),
                 VendorName(d.vendors, r.vendorId));
    }
  }

  /** Overwrites work on the record as the pass found it: listing a model twice
      loses the first overwrite, whatever it wrote. */
  lemma SecondListingWins(s: Sync, r: Request, ups: map<string, Upstream>, known: seq<Model>)
    requires ModelsOk(s.catalog.models) && |s.catalog.models| == |known| && Applies(r, ups, known)
    requires s.catalog.models[Target(known, r.name)].id == known[Target(known, r.name)].id
    requires FieldsOf(r.fields) != [] && OverwroteOne(s, r, ups, known).ok
    ensures var t := OverwroteOne(s, r, ups, known).sync;
            var i := Target(known, r.name);
            var e := EnsuredVendor(s.catalog, s.cache, ups[r.name].vendor);
            && |t.catalog.models| == |known|
            && t.catalog.models[i]
               == Overwritten(known[i], ups[r.name], e.id, FieldsOf(r.fields)).(name := Trim(r.name))
  {
    var i := Target(known, r.name);
    var e := EnsuredVendor(s.catalog, s.cache, ups[r.name].vendor);
    EnsureExactModels(s.catalog, s.cache, ups[r.name].vendor);
    OverwrittenExact(known[i], ups[r.name], e.id, FieldsOf(r.fields));
    var m := Overwritten(known[i], ups[r.name], e.id, FieldsOf(r.fields));
    assert ModelIndex(e.catalog.models, m.id) == i;
  }

  // ------------------------------------------------------------------ the service

  /** The names that enabled channels offer and no exact catalog model has. */
  function MissingModels(names: seq<string>, ms: seq<Model>): seq<string> {
    if names == [] then []
    else
      var name := names[|names| - 1];
      MissingModels(names[..|names| - 1], ms)
      + if exists i :: 0 <= i < |ms| && ms[i].rule == 0 && ms[i].name == name then [] else [name]
  }

  lemma {:induction false} MissingDistinct(names: seq<string>, ms: seq<Model>)
    requires forall j, k :: 0 <= j < k < |names| ==> names[j] != names[k]
    ensures var r := MissingModels(names, ms);
            && (forall x :: x in r ==> x in names)
            && forall j, k :: 0 <= j < k < |r| ==> r[j] != r[k]
  {
    if names != [] {
      var n := |names| - 1;
      MissingDistinct(names[..n], ms);
      var front := MissingModels(names[..n], ms);
      assert names == names[..n] + [names[n]] && names[n] !in names[..n];
      assert forall j :: 0 <= j < |front| ==> front[j] in front;
    }
  }

  class ModelSyncService {
    var state: Sync

    constructor (catalog: Catalog)
      ensures state == Sync(catalog, map[], [], [], [])
    {
      state := Sync(catalog, map[], [], [], []);
    }

    /** Looks a vendor up, creating it and remembering its id as needed. */
    method EnsureVendorId(vendor: string) returns (id: nat)
      modifies this
      ensures var e := EnsuredVendor(old(state).catalog, old(state).cache, vendor);
              id == e.id && state == old(state).(catalog := e.catalog, cache := e.cache)
    {
      var name := Trim(vendor);
      if name == "" { return 0; }
      if name in state.cache { return state.cache[name]; }
      var vendors := state.catalog.vendors;
      var i := VendorIndex(vendors, name);
      if i < |vendors| {
        id := vendors[i].id;
      } else {
        id := SatSucc(MaxId(VendorIds(vendors)));
        state := state.(catalog := state.catalog.(vendors := vendors + [Vendor(id, name)]));
      }
      state := state.(cache := state.cache[name := id]);
    }

    method SyncMissing(names: seq<string>, ups: map<string, Upstream>)
      modifies this
      ensures state == SyncedMissing(old(state), names, ups, old(state).catalog.models)
    {
      var known := state.catalog.models;
      for n := 0 to |names|
        invariant state == SyncedMissing(old(state), names[..n], ups, known)
      {
        assert names[..n + 1][..n] == names[..n];
        var name := names[n];
        if name !in ups || (exists i :: 0 <= i < |known| && known[i].name == name && known[i].official == 0) {
          state := state.(skipped := state.skipped + [name]);
        } else {
          var id := EnsureVendorId(ups[name].vendor);
          var created := Created(state.catalog, FromUpstream(ups[name], id));
          state := match created
            case Some(c) => state.(catalog := c, created := state.created + [name])
            case None => state.(skipped := state.skipped + [name]);
        }
      }
      assert names[..|names|] == names;
    }

    method OverwriteOne(r: Request, ups: map<string, Upstream>, known: seq<Model>) returns (ok: bool)
      modifies this
      ensures Pass(state, ok) == OverwroteOne(old(state), r, ups, known)
    {
      ok := true;
      if r.name in ups && Target(known, r.name) < |known| {
        var u, fields := ups[r.name], FieldsOf(r.fields);
        var id := EnsureVendorId(u.vendor);
        if fields != [] {
          var updated := Updated(state.catalog, Overwritten(known[Target(known, r.name)], u, id, fields));
          if updated.None? { return false; }
          state := state.(catalog := updated.value, updated := state.updated + [r.name]);
        }
      }
    }

    /** Stops at the first record that the store refuses; what was stored before
        stays. */
    method Overwrite(rs: seq<Request>, ups: map<string, Upstream>) returns (ok: bool)
      modifies this
      ensures Pass(state, ok) == OverwroteAll(old(state), rs, ups, old(state).catalog.models)
    {
      var known := state.catalog.models;
      ghost var start := state;
      ok := true;
      for n := 0 to |rs|
        invariant OverwroteAll(start, rs[..n], ups, known) == Pass(state, true)
      {
        assert rs[..n + 1][..n] == rs[..n];
        ok := OverwriteOne(rs[n], ups, known);
        if !ok {
          StoppedStays(start, rs, ups, known, n + 1);
          return;
        }
      }
      assert rs[..|rs|] == rs;
      ok := true;
    }

    /** Both passes. */
    method SyncUpstream(names: seq<string>, rs: seq<Request>, ups: map<string, Upstream>) returns (ok: bool)
      requires state == Sync(state.catalog, map[], [], [], [])
      modifies this
      ensures Pass(state, ok) == Synced(old(state).catalog, names, rs, ups)
    {
      SyncMissing(names, ups);
      ok := Overwrite(rs, ups);
    }
  }

  lemma {:induction false} StoppedStays(s: Sync, rs: seq<Request>, ups: map<string, Upstream>, known: seq<Model>,
                                        n: nat)
    requires n <= |rs| && !OverwroteAll(s, rs[..n], ups, known).ok
    ensures OverwroteAll(s, rs, ups, known) == OverwroteAll(s, rs[..n], ups, known)
    decreases |rs| - n
  {
    if n < |rs| {
      assert rs[..n + 1][..n] == rs[..n];
      StoppedStays(s, rs, ups, known, n + 1);
    } else {
      assert rs[..n] == rs;
    }
  }
}
