/** The three maps inside the settings document. Saving merges the changed
    document into the stored one; on the maps that is the overlay. */
module MultiKeyDocument {
  import opened Prelude
  import opened Text
  import opened DateText
  import opened SettingPatch
  import MultiKey
  import MultiKeyStore

  const STATUS_FIELD := "multi_key_status_list"
  const TIME_FIELD := "multi_key_disabled_time"
  const REASON_FIELD := "multi_key_disabled_reason"

  // -------------------------------------------------------------- index texts

  lemma {:induction false} DecimalInjective(a: nat, b: nat)
    requires Decimal(a) == Decimal(b)
    ensures a == b
  {
    DecimalLength(a);
    DecimalLength(b);
    if a >= 10 && b >= 10 {
      assert Decimal(a)[..|Decimal(a)| - 1] == Decimal(a / 10);
      assert Decimal(b)[..|Decimal(b)| - 1] == Decimal(b / 10);
      DecimalInjective(a / 10, b / 10);
      LastDigit(a);
      LastDigit(b);
      DigitInjective(a % 10, b % 10);
    } else if a < 10 && b < 10 {
      DigitInjective(a, b);
    }
  }

  lemma DigitInjective(a: nat, b: nat)
    requires a < 10 && b < 10 && Digit(a) == Digit(b)
    ensures a == b
  {
  }

  lemma LastDigit(n: nat)
    ensures |Decimal(n)| > 0 && Decimal(n)[|Decimal(n)| - 1] == Digit(n % 10)
  {
  }

  lemma DecimalLength(n: nat)
    ensures |Decimal(n)| >= 1 && (|Decimal(n)| == 1 <==> n < 10)
  {
    DecimalShape(n);
    if n >= 10 { DecimalShape(n / 10); }
  }

  lemma {:induction false} CompactDigits(s: string)
    requires forall i :: 0 <= i < |s| ==> '0' <= s[i] <= '9'
    ensures SettingPatch.Compact(s) == s
  {
    if s != "" { CompactDigits(s[1..]); }
  }

  lemma NotSecretName(s: string)
    requires s != "" && s[0] <= '9'
    ensures s !in SECRET_NAMES
  {
    assert forall name | name in SECRET_NAMES :: name[0] >= 'a';
  }

  lemma EndsAs(s: string, part: string)
    requires part != "" && EndsWith(s, part)
    ensures s != "" && s[|s| - 1] == part[|part| - 1]
  {
    assert s[|s| - |part|..][|part| - 1] == s[|s| - 1];
  }

  lemma NotSecretEnd(s: string)
    requires s != "" && s[|s| - 1] <= '9'
    ensures !SecretEnd(s)
  {
    if EndsWith(s, "_token") { EndsAs(s, "_token"); }
    if EndsWith(s, "-token") { EndsAs(s, "-token"); }
    if EndsWith(s, "_password") { EndsAs(s, "_password"); }
    if EndsWith(s, "-password") { EndsAs(s, "-password"); }
    if EndsWith(s, "_secret") { EndsAs(s, "_secret"); }
    if EndsWith(s, "-secret") { EndsAs(s, "-secret"); }
    if EndsWith(s, "_api_key") { EndsAs(s, "_api_key"); }
    if EndsWith(s, "-api-key") { EndsAs(s, "-api-key"); }
  }

  /** No index text is the name of a secret. */
  lemma IndexNotSensitive(i: nat)
    ensures !Sensitive(Decimal(i))
  {
    DecimalShape(i);
    DigitsNotSensitive(Decimal(i));
  }

  lemma DigitsNotSensitive(s: string)
    requires s != "" && forall i :: 0 <= i < |s| ==> '0' <= s[i] <= '9'
    ensures !Sensitive(s)
  {
    assert Lower(s) == s;
    CompactDigits(s);
    NotSecretName(s);
    NotSecretEnd(s);
  }

  // -------------------------------------------------------------- map fields

  /** A field's object holds exactly the given map, an index text per entry. */
  ghost predicate Encodes<T(!new)>(fields: map<string, Json>, m: map<nat, T>, value: T -> Json) {
    && (forall i: nat :: i in m ==> Decimal(i) in fields && fields[Decimal(i)] == value(m[i]))
    && (forall k :: k in fields ==> exists i: nat :: i in m && k == Decimal(i))
  }

  predicate Scalar(json: Json) {
    json.Number? || json.Str?
  }

  lemma MergeScalar(existing: Json, incoming: Json)
    requires Scalar(incoming)
    ensures Merge(existing, incoming) == incoming
  {
  }

  /** Merging unmasked scalars is the union of the fields. */
  lemma MergeScalars(base: map<string, Json>, overlay: map<string, Json>)
    requires forall k :: k in overlay ==> !Masked(k, overlay[k]) && Scalar(overlay[k])
    ensures Merge(Object(base), Object(overlay)) == Object(base + overlay)
  {
    var merged := Merge(Object(base), Object(overlay)).fields;
    assert Shown(overlay) == overlay.Keys;
    assert merged.Keys == (base + overlay).Keys;
    forall k | k in merged ensures merged[k] == (base + overlay)[k] {
      if k in overlay && k in base { MergeScalar(base[k], overlay[k]); }
    }
  }

  lemma EncodedIsPlain<T(!new)>(fields: map<string, Json>, m: map<nat, T>, value: T -> Json)
    requires Encodes(fields, m, value) && forall v :: Scalar(value(v))
    ensures forall k :: k in fields ==> !Masked(k, fields[k]) && Scalar(fields[k])
  {
    forall k | k in fields ensures !Masked(k, fields[k]) && Scalar(fields[k]) {
      var i: nat :| i in m && k == Decimal(i);
      IndexNotSensitive(i);
    }
  }

  lemma UnionEncodes<T(!new)>(base: map<string, Json>, m: map<nat, T>, overlay: map<string, Json>, n: map<nat, T>,
                              value: T -> Json)
    requires Encodes(base, m, value) && Encodes(overlay, n, value)
    ensures Encodes(base + overlay, m + n, value)
  {
    forall i: nat | i in m + n
      ensures Decimal(i) in base + overlay && (base + overlay)[Decimal(i)] == value((m + n)[i])
    {
      if Decimal(i) in overlay {
        var j: nat :| j in n && Decimal(i) == Decimal(j);
        DecimalInjective(i, j);
      }
    }
    forall k | k in base + overlay ensures exists i: nat :: i in m + n && k == Decimal(i) {
      if k in overlay {
        var i: nat :| i in n && k == Decimal(i);
        assert i in m + n;
      } else {
        var i: nat :| i in m && k == Decimal(i);
        assert i in m + n;
      }
    }
  }

  /** Merging one encoded map into another overlays it. */
  lemma MergeOverlays<T(!new)>(base: map<string, Json>, m: map<nat, T>, overlay: map<string, Json>, n: map<nat, T>,
                               value: T -> Json)
    requires Encodes(base, m, value) && Encodes(overlay, n, value) && forall v :: Scalar(value(v))
    ensures Merge(Object(base), Object(overlay)) == Object(base + overlay)
    ensures Encodes(base + overlay, m + n, value)
  {
    EncodedIsPlain(overlay, n, value);
    MergeScalars(base, overlay);
    UnionEncodes(base, m, overlay, n, value);
  }

  function NumberOf(n: int): Json {
    Number(n)
  }

  function TextOf(s: string): Json {
    Str(s)
  }

  /** A settings document holds a map in a field; a missing field holds none. */
  ghost predicate HoldsMap<T(!new)>(setting: map<string, Json>, field: string, m: map<nat, T>, value: T -> Json) {
    if field in setting then setting[field].Object? && Encodes(setting[field].fields, m, value) else m == map[]
  }

  ghost predicate Holds(setting: map<string, Json>, st: MultiKey.KeyState) {
    && HoldsMap(setting, STATUS_FIELD, st.status, NumberOf)
    && HoldsMap(setting, TIME_FIELD, st.time, NumberOf)
    && HoldsMap(setting, REASON_FIELD, st.reason, TextOf)
  }

  lemma MergedField(setting: map<string, Json>, copy: map<string, Json>, field: string)
    requires field in copy && copy[field].Object?
    ensures var merged := Merge(Object(setting), Object(copy));
            && merged.Object? && field in merged.fields
            && merged.fields[field] == if field in setting then Merge(setting[field], copy[field]) else copy[field]
  {
    assert field in Shown(copy);
  }

  lemma MergeOverlaysField<T(!new)>(setting: map<string, Json>, copy: map<string, Json>, field: string,
                                    m: map<nat, T>, n: map<nat, T>, value: T -> Json)
    requires HoldsMap(setting, field, m, value) && field in copy && HoldsMap(copy, field, n, value)
    requires forall v :: Scalar(value(v))
    ensures HoldsMap(Merge(Object(setting), Object(copy)).fields, field, m + n, value)
  {
    MergedField(setting, copy, field);
    if field in setting {
      MergeOverlays(setting[field].fields, m, copy[field].fields, n, value);
    } else {
      assert m + n == n;
    }
  }

  /** Saving a copy whose three maps were changed stores the overlay of the maps,
      and leaves every other setting as it was. */
  lemma SaveOverlays(setting: map<string, Json>, st: MultiKey.KeyState,
                     copy: map<string, Json>, next: MultiKey.KeyState)
    requires Holds(setting, st) && Holds(copy, next) && {STATUS_FIELD, TIME_FIELD, REASON_FIELD} <= copy.Keys
    requires forall k | k !in {STATUS_FIELD, TIME_FIELD, REASON_FIELD} ::
               (k in copy <==> k in setting) && (k in setting ==> copy[k] == setting[k])
    ensures var merged := Merge(Object(setting), Object(copy)).fields;
            && Holds(merged, MultiKeyStore.Overlaid(st, next))
            && forall k | k !in {STATUS_FIELD, TIME_FIELD, REASON_FIELD} ::
                 (k in merged <==> k in setting) && (k in setting ==> merged[k] == setting[k])
  {
    MergeOverlaysField(setting, copy, STATUS_FIELD, st.status, next.status, NumberOf);
    MergeOverlaysField(setting, copy, TIME_FIELD, st.time, next.time, NumberOf);
    MergeOverlaysField(setting, copy, REASON_FIELD, st.reason, next.reason, TextOf);
    forall k | k in setting ensures Merge(setting[k], setting[k]) == setting[k] {
      CoversItself(setting[k]);
      MergeReplaces(setting[k], setting[k]);
    }
  }
}
