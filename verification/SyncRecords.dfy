/** What the upstream sync writes, field by field. */
module SyncRecords {
  import opened Prelude
  import opened Text
  import opened ModelSync

  /** The words a request uses for the fields. */
  lemma FieldWords()
    ensures FieldOf("description") == Some(Description) && FieldOf("icon") == Some(Icon)
    ensures FieldOf("tags") == Some(Tags) && FieldOf("vendor") == Some(VendorField)
    ensures FieldOf("name_rule") == Some(NameRule) && FieldOf("status") == Some(Status)
    ensures FieldOf("endpoints") == Some(Endpoints)
  {
    FieldNamesParse(Description);
    FieldNamesParse(Icon);
    FieldNamesParse(Tags);
    FieldNamesParse(VendorField);
    FieldNamesParse(NameRule);
    FieldNamesParse(Status);
    FieldNamesParse(Endpoints);
  }

  /** A status of 0 is none: upstream's counts, then the one there was, then 1. */
  lemma StatusChosen(upstream: int, local: int)
    ensures var s := ChooseStatus(upstream, local);
            && s != 0 && (upstream != 0 ==> s == upstream)
            && (upstream == 0 && local != 0 ==> s == local) && (upstream == 0 == local ==> s == 1)
  {
  }

  /** A missing model is new to the catalog, official, and has upstream's fields and
      the vendor that upstream names. */
  predicate TakenOver(m: Model, name: string, u: Upstream, vendors: seq<Vendor>) {
    && m.name == name && m.official == 1 && m.description == u.description && m.icon == u.icon && m.tags == u.tags
    && m.rule == u.rule && m.endpoints == u.endpoints && m.status == (if u.status != 0 then u.status else 1)
    && VendorName(vendors, m.vendorId) == Trim(u.vendor)
  }

  /** One missing name: it is created if and only if upstream has it, no unofficial
      model has the name, its rule is one of the four and no model has the name;
      otherwise it is skipped and no model changes. */
  lemma MissingOne(s: Sync, name: string, ups: map<string, Upstream>, known: seq<Model>)
    requires KeyedByName(ups) && VendorsOk(s.catalog.vendors) && CacheOk(s.catalog.vendors, s.cache)
    requires Room(s.catalog.vendors)
    ensures var t, models := SyncedOne(s, name, ups, known), s.catalog.models;
            if && name in ups && 0 <= ups[name].rule <= 3
               && (forall i :: 0 <= i < |known| && known[i].name == name ==> known[i].official != 0)
               && (forall i :: 0 <= i < |models| ==> models[i].name != name)
            then && t.created == s.created + [name] && t.skipped == s.skipped
                 && |t.catalog.models| == |models| + 1 && t.catalog.models[..|models|] == models
                 && TakenOver(t.catalog.models[|models|], name, ups[name], t.catalog.vendors)
            else t.created == s.created && t.skipped == s.skipped + [name] && t.catalog.models == models
  {
    if name in ups {
      EnsureExact(s.catalog, s.cache, ups[name].vendor);
      TrimTwice(ups[name].name);
    }
  }

  /** A name of the list is missing if and only if no exact model has it. */
  lemma {:induction false} MissingExact(names: seq<string>, ms: seq<Model>, x: string)
    ensures x in MissingModels(names, ms) <==>
            x in names && forall i :: 0 <= i < |ms| && ms[i].rule == 0 ==> ms[i].name != x
  {
    if names != [] {
      var n := |names| - 1;
      MissingExact(names[..n], ms, x);
      assert names == names[..n] + [names[n]];
    }
  }

  /** And they are listed in the order of the names. */
  lemma {:induction false} MissingAppend(a: seq<string>, b: seq<string>, ms: seq<Model>)
    ensures MissingModels(a + b, ms) == MissingModels(a, ms) + MissingModels(b, ms)
  {
    if b == [] {
      assert a + b == a;
    } else {
      var n := |b| - 1;
      assert (a + b)[..|a| + n] == a + b[..n] && (a + b)[|a| + n] == b[n];
      MissingAppend(a, b[..n], ms);
    }
  }
}
