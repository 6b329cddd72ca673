/** Channel settings are JSON documents. A credential refresh sends the
    management store a sparse patch of the fields it changed, and the store
    overlays it on whatever the settings are by then. */
module SettingPatch {
  import opened Prelude
  import opened Text
  import opened DateText

  datatype Json =
    | Null
    | Bool(b: bool)
    | Number(n: int)
    | Str(text: string)
    | Array(items: seq<Json>)
    | Object(fields: map<string, Json>)

  // ---------------------------------------------------------- hidden secrets

  function Compact(s: string): string {
    if s == "" then ""
    else (if 'a' <= s[0] <= 'z' || '0' <= s[0] <= '9' then [s[0]] else "") + Compact(s[1..])
  }

  const SECRET_NAMES: seq<string> :=
    ["authorization", "proxyauthorization", "apikey", "token", "accesstoken", "refreshtoken", "idtoken", "password",
     "secret", "clientsecret", "privatekey", "secretkey", "proxy", "proxyurl", "cookie", "setcookie"]

  predicate SecretEnd(lower: string) {
    || EndsWith(lower, "_token") || EndsWith(lower, "-token")
    || EndsWith(lower, "_password") || EndsWith(lower, "-password")
    || EndsWith(lower, "_secret") || EndsWith(lower, "-secret")
    || EndsWith(lower, "_api_key") || EndsWith(lower, "-api-key")
  }

  predicate Sensitive(key: string) {
    Compact(Lower(key)) in SECRET_NAMES || SecretEnd(Lower(key))
  }

  /** Which names are secret: in any case, with the separators left out one of these
      words, or with one of these endings. */
  lemma SensitiveExact(key: string)
    ensures Sensitive(key) <==>
            || Compact(Lower(key)) in
                 ["authorization", "proxyauthorization", "apikey", "token", "accesstoken", "refreshtoken", "idtoken",
                  "password", "secret", "clientsecret", "privatekey", "secretkey", "proxy", "proxyurl", "cookie",
                  "setcookie"]
            || EndsWith(Lower(key), "_token") || EndsWith(Lower(key), "-token")
            || EndsWith(Lower(key), "_password") || EndsWith(Lower(key), "-password")
            || EndsWith(Lower(key), "_secret") || EndsWith(Lower(key), "-secret")
            || EndsWith(Lower(key), "_api_key") || EndsWith(Lower(key), "-api-key")
  {
  }

  /** Leaving separators out works character by character. */
  lemma {:induction false} CompactAppend(s: string, t: string)
    ensures Compact(s + t) == Compact(s) + Compact(t)
  {
    if s == "" {
      assert s + t == t;
    } else {
      assert (s + t)[1..] == s[1..] + t;
      CompactAppend(s[1..], t);
      var first := if 'a' <= s[0] <= 'z' || '0' <= s[0] <= '9' then [s[0]] else "";
      assert first + (Compact(s[1..]) + Compact(t)) == (first + Compact(s[1..])) + Compact(t);
    }
  }

  lemma CompactAlone(c: char)
    ensures Compact([c]) == if 'a' <= c <= 'z' || '0' <= c <= '9' then [c] else ""
  {
    assert [c][1..] == "" && Compact("") == "";
  }

  /** A blank secret is what a masked read shows, not a new value. */
  predicate Masked(key: string, value: Json) {
    value.Str? && Trim(value.text) == "" && Sensitive(key)
  }

  // ------------------------------------------------------------------ overlay

  function Merge(existing: Json, incoming: Json): Json
    decreases incoming
  {
    match (existing, incoming)
    case (Object(base), Object(overlay)) =>
      Object(map k | k in base.Keys + Shown(overlay) ::
        if k !in overlay || Masked(k, overlay[k]) then base[k]
        else if k in base then Merge(base[k], overlay[k])
        else overlay[k])
    case (Array(base), Array(overlay)) =>
      Array(seq(|overlay|, i requires 0 <= i < |overlay| =>
        if i < |base| then Merge(base[i], overlay[i]) else overlay[i]))
    case (_, _) => incoming
  }

  /** The keys of an overlay that it has a real value for. */
  function Shown(overlay: map<string, Json>): set<string> {
    set k | k in overlay && !Masked(k, overlay[k])
  }

  /** When an overlay says everything: nothing of the existing value shows
      through it. */
  predicate Covers(existing: Json, incoming: Json)
    decreases incoming
  {
    match (existing, incoming)
    case (Object(base), Object(overlay)) =>
      && base.Keys <= overlay.Keys
      && forall k :: k in overlay ==>
           if Masked(k, overlay[k]) then k in base && base[k] == overlay[k]
           else k in base ==> Covers(base[k], overlay[k])
    case (Array(base), Array(overlay)) =>
      forall i :: 0 <= i < |overlay| && i < |base| ==> Covers(base[i], overlay[i])
    case (_, _) => true
  }

  /** The merge yields the incoming value exactly when that value covers. */
  lemma {:induction false} MergeReplaces(existing: Json, incoming: Json)
    ensures Merge(existing, incoming) == incoming <==> Covers(existing, incoming)
    decreases incoming
  {
    match (existing, incoming)
    case (Object(base), Object(overlay)) =>
      var merged := Merge(existing, incoming).fields;
      forall k | k in base && k in overlay
        ensures Merge(base[k], overlay[k]) == overlay[k] <==> Covers(base[k], overlay[k])
      {
        MergeReplaces(base[k], overlay[k]);
      }
      if Covers(existing, incoming) {
        assert merged == overlay;
      }
    case (Array(base), Array(overlay)) =>
      forall i | 0 <= i < |overlay| && i < |base|
        ensures Merge(base[i], overlay[i]) == overlay[i] <==> Covers(base[i], overlay[i])
      {
        MergeReplaces(base[i], overlay[i]);
      }
      ArrayReplaced(base, overlay);
    case (_, _) =>
  }

  lemma ArrayReplaced(base: seq<Json>, overlay: seq<Json>)
    ensures Merge(Array(base), Array(overlay)) == Array(overlay)
       <==> forall i :: 0 <= i < |overlay| && i < |base| ==> Merge(base[i], overlay[i]) == overlay[i]
  {
    var merged := Merge(Array(base), Array(overlay)).items;
    if forall i :: 0 <= i < |overlay| && i < |base| ==> Merge(base[i], overlay[i]) == overlay[i] {
      assert merged == overlay;
    } else {
      var i :| 0 <= i < |overlay| && i < |base| && Merge(base[i], overlay[i]) != overlay[i];
      assert merged[i] != overlay[i];
    }
  }

  lemma {:induction false} CoversItself(json: Json)
    ensures Covers(json, json)
  {
    match json
    case Object(fields) =>
      forall k | k in fields ensures Covers(fields[k], fields[k]) { CoversItself(fields[k]); }
    case Array(items) =>
      forall i | 0 <= i < |items| ensures Covers(items[i], items[i]) { CoversItself(items[i]); }
    case _ =>
  }

  /** Sending the same patch twice is the same as sending it once. */
  lemma {:induction false} MergeIsIdempotent(existing: Json, incoming: Json)
    ensures Merge(Merge(existing, incoming), incoming) == Merge(existing, incoming)
    decreases incoming
  {
    CoversItself(incoming);
    MergeReplaces(incoming, incoming);
    match (existing, incoming)
    case (Object(base), Object(overlay)) =>
      forall k | k in overlay && k in base
        ensures Merge(Merge(base[k], overlay[k]), overlay[k]) == Merge(base[k], overlay[k])
      {
        MergeIsIdempotent(base[k], overlay[k]);
      }
      forall k | k in overlay ensures Merge(overlay[k], overlay[k]) == overlay[k] {
        CoversItself(overlay[k]);
        MergeReplaces(overlay[k], overlay[k]);
      }
      var once := Merge(existing, incoming);
      assert Merge(once, incoming).fields == once.fields;
    case (Array(base), Array(overlay)) =>
      forall i | 0 <= i < |overlay| && i < |base|
        ensures Merge(Merge(base[i], overlay[i]), overlay[i]) == Merge(base[i], overlay[i])
      {
        MergeIsIdempotent(base[i], overlay[i]);
      }
      forall i | 0 <= i < |overlay| ensures Merge(overlay[i], overlay[i]) == overlay[i] {
        CoversItself(overlay[i]);
        MergeReplaces(overlay[i], overlay[i]);
      }
      var once := Merge(existing, incoming);
      assert Merge(once, incoming).items == once.items;
    case (_, _) =>
  }

  // --------------------------------------------------------------- sparse patch

  /** The fields of `after` that `before` lacks or has another value for. */
  function Changed(before: map<string, Json>, after: map<string, Json>): map<string, Json> {
    map k | k in after && !(k in before && before[k] == after[k]) :: after[k]
  }

  /** A sparse patch rebuilds the settings it was taken from exactly when no field
      was dropped, no changed field is a blank secret, and every changed field
      that was there before is covered by its new value. */
  lemma PatchRebuilds(before: map<string, Json>, after: map<string, Json>)
    ensures Merge(Object(before), Object(Changed(before, after))) == Object(after)
       <==> && before.Keys <= after.Keys
            && forall k :: k in Changed(before, after) ==>
                 !Masked(k, after[k]) && (k in before ==> Covers(before[k], after[k]))
  {
    var patch := Changed(before, after);
    var merged := Merge(Object(before), Object(patch)).fields;
    forall k | k in patch && k in before
      ensures Merge(before[k], after[k]) == after[k] <==> Covers(before[k], after[k])
    {
      MergeReplaces(before[k], after[k]);
    }
    if && before.Keys <= after.Keys
       && forall k :: k in patch ==> !Masked(k, after[k]) && (k in before ==> Covers(before[k], after[k]))
    {
      assert merged.Keys == after.Keys;
      assert merged == after;
    }
  }

  // ------------------------------------------------------------- token refresh

  datatype Tokens = Tokens(access: string, refresh: string, idToken: Option<string>, expiresIn: int)
  /** What the upstream reply parser lets through: trimmed, not blank. */
  predicate Parsed(t: Tokens) {
    && Trim(t.refresh) == t.refresh != ""
    && (t.idToken.Some? ==> Trim(t.idToken.value) == t.idToken.value != "")
  }

  function IntText(n: int): string {
    if n >= 0 then Decimal(n) else "-" + Decimal(-n)
  }

  function ExpiryText(at: int, expiresIn: int): string {
    IntText(if at + expiresIn > I64_MAX then I64_MAX else at + expiresIn)
  }

  function Put(fields: map<string, Json>, key: string, text: Option<string>): map<string, Json> {
    if text.Some? then fields[key := Str(text.value)] else fields
  }

  function EndpointText(endpoint: Option<string>): Option<string> {
    if endpoint.Some? && Trim(endpoint.value) != "" then Some(Trim(endpoint.value)) else None
  }

  function WithTokens(fields: map<string, Json>, t: Tokens): map<string, Json> {
    Put(Put(fields, "refresh_token", Some(t.refresh)), "id_token", t.idToken)
  }

  function WithTimes(fields: map<string, Json>, expiresIn: int, at: int): map<string, Json> {
    Put(Put(fields, "expired", if expiresIn > 0 then Some(ExpiryText(at, expiresIn)) else None),
        "last_refresh", Some(IntText(at)))
  }

  /** The settings after a refresh: up to five fields are written, all strings. */
  function Refreshed(setting: map<string, Json>, t: Tokens, endpoint: Option<string>, at: int): map<string, Json> {
    Put(WithTimes(WithTokens(setting, t), t.expiresIn, at), "token_endpoint", EndpointText(endpoint))
  }

  function At(fields: map<string, Json>, key: string): Option<Json> {
    if key in fields then Some(fields[key]) else None
  }

  lemma PutAt(fields: map<string, Json>, key: string, text: Option<string>, other: string)
    ensures At(Put(fields, key, text), key) == if text.Some? then Some(Str(text.value)) else At(fields, key)
    ensures other != key ==> At(Put(fields, key, text), other) == At(fields, other)
  {
  }

  lemma TokensAt(fields: map<string, Json>, t: Tokens, other: string)
    requires other != "refresh_token" && other != "id_token"
    ensures var after := WithTokens(fields, t);
            && At(after, "refresh_token") == Some(Str(t.refresh))
            && At(after, "id_token") == (if t.idToken.Some? then Some(Str(t.idToken.value)) else At(fields, "id_token"))
            && At(after, other) == At(fields, other)
  {
    var first := Put(fields, "refresh_token", Some(t.refresh));
    assert |"refresh_token"| != |"id_token"|;
    PutAt(fields, "refresh_token", Some(t.refresh), "id_token");
    PutAt(fields, "refresh_token", Some(t.refresh), other);
    PutAt(first, "id_token", t.idToken, "refresh_token");
    PutAt(first, "id_token", t.idToken, other);
  }

  lemma TimesAt(fields: map<string, Json>, expiresIn: int, at: int, other: string)
    requires other != "expired" && other != "last_refresh"
    ensures var after := WithTimes(fields, expiresIn, at);
            && At(after, "last_refresh") == Some(Str(IntText(at)))
            && At(after, "expired")
               == (if expiresIn > 0 then Some(Str(ExpiryText(at, expiresIn))) else At(fields, "expired"))
            && At(after, other) == At(fields, other)
  {
    var expiry := if expiresIn > 0 then Some(ExpiryText(at, expiresIn)) else None;
    var first := Put(fields, "expired", expiry);
    assert |"expired"| != |"last_refresh"|;
    PutAt(fields, "expired", expiry, "last_refresh");
    PutAt(fields, "expired", expiry, other);
    PutAt(first, "last_refresh", Some(IntText(at)), "expired");
    PutAt(first, "last_refresh", Some(IntText(at)), other);
  }

  /** Which value goes where: the granted refresh token and the time of the refresh
      always, the identity token, the expiry and the endpoint when there is one. */
  lemma RefreshedExact(setting: map<string, Json>, t: Tokens, endpoint: Option<string>, at: int)
    ensures var after := Refreshed(setting, t, endpoint, at);
            && At(after, "refresh_token") == Some(Str(t.refresh))
            && At(after, "last_refresh") == Some(Str(IntText(at)))
            && At(after, "id_token")
               == (if t.idToken.Some? then Some(Str(t.idToken.value)) else At(setting, "id_token"))
            && At(after, "expired")
               == (if t.expiresIn <= 0 then At(setting, "expired")
                   else if at + t.expiresIn <= I64_MAX then Some(Str(IntText(at + t.expiresIn)))
                   else Some(Str(IntText(I64_MAX))))
            && At(after, "token_endpoint")
               == (if endpoint.Some? && Trim(endpoint.value) != "" then Some(Str(Trim(endpoint.value)))
                   else At(setting, "token_endpoint"))
  {
    assert |"refresh_token"| == 13 && |"id_token"| == 8 && |"expired"| == 7;
    assert |"last_refresh"| == 12 && |"token_endpoint"| == 14;
    var first := WithTokens(setting, t);
    TokensAt(setting, t, "expired");
    TokensAt(setting, t, "token_endpoint");
    TimesAt(first, t.expiresIn, at, "refresh_token");
    TimesAt(first, t.expiresIn, at, "id_token");
    TimesAt(first, t.expiresIn, at, "token_endpoint");
    EndpointAt(WithTimes(first, t.expiresIn, at), endpoint);
  }

  lemma EndpointAt(fields: map<string, Json>, endpoint: Option<string>)
    ensures var after := Put(fields, "token_endpoint", EndpointText(endpoint));
            && At(after, "token_endpoint")
               == (if EndpointText(endpoint).Some? then Some(Str(EndpointText(endpoint).value))
                   else At(fields, "token_endpoint"))
            && At(after, "refresh_token") == At(fields, "refresh_token")
            && At(after, "id_token") == At(fields, "id_token")
            && At(after, "expired") == At(fields, "expired")
            && At(after, "last_refresh") == At(fields, "last_refresh")
  {
    assert |"refresh_token"| == 13 && |"id_token"| == 8 && |"expired"| == 7;
    assert |"last_refresh"| == 12 && |"token_endpoint"| == 14;
    PutAt(fields, "token_endpoint", EndpointText(endpoint), "refresh_token");
    PutAt(fields, "token_endpoint", EndpointText(endpoint), "id_token");
    PutAt(fields, "token_endpoint", EndpointText(endpoint), "expired");
    PutAt(fields, "token_endpoint", EndpointText(endpoint), "last_refresh");
  }

  /** Every field but those five stays. */
  lemma RefreshedElsewhere(setting: map<string, Json>, t: Tokens, endpoint: Option<string>, at: int, other: string)
    requires other !in ["refresh_token", "id_token", "expired", "last_refresh", "token_endpoint"]
    ensures At(Refreshed(setting, t, endpoint, at), other) == At(setting, other)
  {
    var first := WithTokens(setting, t);
    TokensAt(setting, t, other);
    TimesAt(first, t.expiresIn, at, other);
    PutAt(WithTimes(first, t.expiresIn, at), "token_endpoint", EndpointText(endpoint), other);
  }

  /** A string that is not blank, as every value a refresh writes. */
  predicate Visible(json: Json) {
    json.Str? && Trim(json.text) != ""
  }

  const FIELDS: set<string> := {"refresh_token", "id_token", "expired", "last_refresh", "token_endpoint"}

  /** `after` differs from `before` by visible strings in the refresh fields only. */
  predicate Touches(before: map<string, Json>, after: map<string, Json>) {
    && before.Keys <= after.Keys
    && forall k :: k in after ==> (k in before && after[k] == before[k]) || (k in FIELDS && Visible(after[k]))
  }

  lemma {:induction false} DecimalShape(n: nat)
    ensures |Decimal(n)| > 0 && forall i :: 0 <= i < |Decimal(n)| ==> '0' <= Decimal(n)[i] <= '9'
  {
    if n >= 10 { DecimalShape(n / 10); }
  }

  lemma IntTextVisible(n: int)
    ensures Visible(Str(IntText(n)))
  {
    DecimalShape(if n >= 0 then n else -n);
    TrimFixed(IntText(n));
  }

  lemma PutTouches(before: map<string, Json>, fields: map<string, Json>, key: string, text: Option<string>)
    requires Touches(before, fields) && key in FIELDS && (text.Some? ==> Visible(Str(text.value)))
    ensures Touches(before, Put(fields, key, text))
  {
  }

  lemma TokensTouch(before: map<string, Json>, t: Tokens)
    requires Parsed(t)
    ensures Touches(before, WithTokens(before, t))
  {
    PutTouches(before, before, "refresh_token", Some(t.refresh));
    PutTouches(before, Put(before, "refresh_token", Some(t.refresh)), "id_token", t.idToken);
  }

  lemma TimesTouch(before: map<string, Json>, fields: map<string, Json>, expiresIn: int, at: int)
    requires Touches(before, fields)
    ensures Touches(before, WithTimes(fields, expiresIn, at))
  {
    IntTextVisible(at);
    IntTextVisible(if at + expiresIn > I64_MAX then I64_MAX else at + expiresIn);
    var expiry := if expiresIn > 0 then Some(ExpiryText(at, expiresIn)) else None;
    PutTouches(before, fields, "expired", expiry);
    PutTouches(before, Put(fields, "expired", expiry), "last_refresh", Some(IntText(at)));
  }

  lemma EndpointVisible(endpoint: Option<string>)
    ensures EndpointText(endpoint).Some? ==> Visible(Str(EndpointText(endpoint).value))
  {
    if endpoint.Some? {
      TrimShape(endpoint.value);
      TrimFixed(Trim(endpoint.value));
    }
  }

  lemma RefreshTouches(before: map<string, Json>, t: Tokens, endpoint: Option<string>, at: int)
    requires Parsed(t)
    ensures Touches(before, Refreshed(before, t, endpoint, at))
  {
    TokensTouch(before, t);
    TimesTouch(before, WithTokens(before, t), t.expiresIn, at);
    EndpointVisible(endpoint);
    PutTouches(before, WithTimes(WithTokens(before, t), t.expiresIn, at), "token_endpoint", EndpointText(endpoint));
  }

  /** Overlaying strings that are not blank simply writes them. */
  lemma VisibleOverlay(base: map<string, Json>, patch: map<string, Json>)
    requires forall k :: k in patch ==> Visible(patch[k])
    ensures Merge(Object(base), Object(patch)) == Object(base + patch)
  {
    assert Merge(Object(base), Object(patch)).fields == base + patch;
  }

  /** Every refresh, of any settings, can be sent as its sparse patch. */
  lemma RefreshPatchRebuilds(before: map<string, Json>, t: Tokens, endpoint: Option<string>, at: int)
    requires Parsed(t)
    ensures var after := Refreshed(before, t, endpoint, at);
            Merge(Object(before), Object(Changed(before, after))) == Object(after)
  {
    RefreshTouches(before, t, endpoint, at);
    TouchRebuilds(before, Refreshed(before, t, endpoint, at));
  }

  lemma TouchRebuilds(before: map<string, Json>, after: map<string, Json>)
    requires Touches(before, after)
    ensures Merge(Object(before), Object(Changed(before, after))) == Object(after)
  {
    VisibleOverlay(before, Changed(before, after));
    assert before + Changed(before, after) == after;
  }

  /** An operator edit that lands between the refresh's read and its commit loses
      nothing: each field the patch does not carry is as the edit left it, and
      each field it carries is as the refresh wrote it. */
  lemma EditSurvivesRefresh(before: map<string, Json>, edited: map<string, Json>, t: Tokens,
                            endpoint: Option<string>, at: int)
    requires Parsed(t)
    ensures var after := Refreshed(before, t, endpoint, at);
            var patch := Changed(before, after);
            && Merge(Object(edited), Object(patch)) == Object(edited + patch)
            && patch.Keys <= FIELDS
            && forall k :: k in patch ==> patch[k] == after[k]
  {
    RefreshTouches(before, t, endpoint, at);
    var patch := Changed(before, Refreshed(before, t, endpoint, at));
    VisibleOverlay(edited, patch);
  }

  /** A blank secret in an edit form leaves the stored secret alone. */
  lemma MaskedKeepsSecret(base: map<string, Json>, overlay: map<string, Json>, k: string)
    requires k in overlay && Masked(k, overlay[k])
    ensures var merged := Merge(Object(base), Object(overlay)).fields;
            (k in merged <==> k in base) && (k in base ==> merged[k] == base[k])
  {
  }
}
