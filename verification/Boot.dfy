/** Boots of the control API over one credentials file: each resolves the two
    runtime secrets, the first also bootstraps the root administrator. */
module Boot {
  import opened Prelude
  import opened Text
  import opened Credentials

  // ------------------------------------------------------------ keys and values

  /** Equality of keys, ignoring ASCII case. */
  predicate SameKey(a: string, b: string) {
    |a| == |b| && forall i :: 0 <= i < |a| ==> LowerChar(a[i]) == LowerChar(b[i])
  }

  lemma SameKeyExact(a: string, b: string)
    ensures SameKey(a, b) <==> Lower(a) == Lower(b)
  {
    if Lower(a) == Lower(b) {
      assert |Lower(a)| == |a| && |Lower(b)| == |b|;
      forall i | 0 <= i < |a| ensures LowerChar(a[i]) == LowerChar(b[i]) {
        assert Lower(a)[i] == Lower(b)[i];
      }
    }
  }

  function Get(pairs: seq<Pair>, key: string): Option<string> {
    if pairs == [] then None
    else if SameKey(pairs[0].key, key) then Some(pairs[0].value)
    else Get(pairs[1..], key)
  }

  function Set(pairs: seq<Pair>, key: string, value: string): seq<Pair> {
    if pairs == [] then [Pair(key, value)]
    else if SameKey(pairs[0].key, key) then [Pair(pairs[0].key, value)] + pairs[1..]
    else [pairs[0]] + Set(pairs[1..], key, value)
  }

  /** Overwrites the first pair with the key, or appends one. */
  method SetKv(pairs: seq<Pair>, key: string, value: string) returns (out: seq<Pair>)
    ensures out == Set(pairs, key, value)
  {
    var n := 0;
    while n < |pairs| && !SameKey(pairs[n].key, key)
      invariant n <= |pairs|
      invariant pairs[..n] + Set(pairs[n..], key, value) == Set(pairs, key, value)
    {
      SetNext(pairs, n, key, value);
      n := n + 1;
    }
    if n < |pairs| {
      out := pairs[n := Pair(pairs[n].key, value)];
      assert out == pairs[..n] + ([Pair(pairs[n].key, value)] + pairs[n..][1..]);
    } else {
      out := pairs + [Pair(key, value)];
      assert pairs[..n] == pairs && pairs[n..] == [];
    }
  }

  lemma SetNext(pairs: seq<Pair>, n: nat, key: string, value: string)
    requires n < |pairs| && !SameKey(pairs[n].key, key)
    ensures pairs[..n] + Set(pairs[n..], key, value) == pairs[..n + 1] + Set(pairs[n + 1..], key, value)
  {
    assert pairs[n..][1..] == pairs[n + 1..];
    assert pairs[..n + 1] == pairs[..n] + [pairs[n]];
    Regroup(pairs[..n], [pairs[n]], Set(pairs[n + 1..], key, value));
  }

  /** A write is read back under its key, in any spelling of it, and shows under
      no other. */
  lemma {:induction false} GetSet(pairs: seq<Pair>, key: string, value: string, asked: string)
    ensures Get(Set(pairs, key, value), asked)
         == if SameKey(key, asked) then Some(value) else Get(pairs, asked)
  {
    if pairs != [] {
      var set' := Set(pairs, key, value);
      if SameKey(pairs[0].key, key) {
        assert set'[1..] == pairs[1..];
        assert SameKey(pairs[0].key, asked) <==> SameKey(key, asked);
      } else {
        assert set'[1..] == Set(pairs[1..], key, value);
        GetSet(pairs[1..], key, value, asked);
      }
    }
  }

  lemma {:induction false} SetWritable(pairs: seq<Pair>, key: string, value: string)
    requires Writable(pairs) && PlainKey(key) && Free(value, '\n')
    ensures Writable(Set(pairs, key, value))
  {
    if pairs != [] && !SameKey(pairs[0].key, key) {
      SetWritable(pairs[1..], key, value);
    }
  }

  // ---------------------------------------------------------------- the secrets

  /** The first candidate that is not blank, trimmed. */
  function FirstVisible(candidates: seq<Option<string>>): Option<string> {
    if candidates == [] then None
    else if candidates[0].Some? && Trim(candidates[0].value) != "" then Some(Trim(candidates[0].value))
    else FirstVisible(candidates[1..])
  }

  /** Where a secret may come from besides the file; fixed from boot to boot. */
  datatype Sources = Sources(config: Option<string>, environment: Option<string>)

  function Resolved(from: Sources, pairs: seq<Pair>, key: string): Option<string> {
    FirstVisible([from.config, from.environment, Get(pairs, key)])
  }

  datatype Secrets = Secrets(session: string, internal: string)
  datatype Booted = Booted(secrets: Secrets, file: string)

  const SESSION := "session_secret"
  const INTERNAL := "internal_secret"

  function WithSecret(from: Sources, existing: seq<Pair>, lines: seq<Pair>, key: string, token: string): seq<Pair> {
    if Resolved(from, existing, key).Some? then lines else Set(lines, key, token)
  }

  function SecretOr(found: Option<string>, token: string): string {
    if found.Some? then found.value else token
  }

  /** The lines a boot would write: each missing secret set, the rest as read. */
  function BootLines(session: Sources, internal: Sources, existing: seq<Pair>, tokens: Secrets): seq<Pair> {
    WithSecret(internal, existing, WithSecret(session, existing, existing, SESSION, tokens.session),
               INTERNAL, tokens.internal)
  }

  /** One boot. `tokens` are the two random values it would use. */
  function BootOnce(session: Sources, internal: Sources, header: seq<string>, file: string, tokens: Secrets): Booted {
    var existing := Read(file);
    var s := Resolved(session, existing, SESSION);
    var i := Resolved(internal, existing, INTERNAL);
    Booted(Secrets(SecretOr(s, tokens.session), SecretOr(i, tokens.internal)),
           if s.None? || i.None? then FileText(header, BootLines(session, internal, existing, tokens)) else file)
  }

  /** The root administrator's rewrite of the file. */
  function AdminLines(pairs: seq<Pair>, user: string, password: string, at: string): seq<Pair> {
    Set(Set(Set(Set(pairs, "username", user), "password", password), "role", "root"), "generated_at", at)
  }

  datatype Event =
    | BootAgain(tokens: Secrets)
    | AdminWritten(header: seq<string>, user: string, password: string, at: string)

  function After(session: Sources, internal: Sources, header: seq<string>, file: string, e: Event): string {
    match e
    case BootAgain(tokens) => BootOnce(session, internal, header, file, tokens).file
    case AdminWritten(top, user, password, at) => FileText(top, AdminLines(Read(file), user, password, at))
  }

  function AfterAll(session: Sources, internal: Sources, header: seq<string>, file: string,
                    events: seq<Event>): string {
    if events == [] then file
    else After(session, internal, header, AfterAll(session, internal, header, file, events[..|events| - 1]),
               events[|events| - 1])
  }

  class CredentialsFile {
    var text: string

    /** Resolves both secrets, generating and persisting the missing ones. */
    method EnsureRuntimeSecrets(session: Sources, internal: Sources, header: seq<string>, tokens: Secrets)
      returns (secrets: Secrets)
      modifies this
      ensures Booted(secrets, text) == BootOnce(session, internal, header, old(text), tokens)
    {
      var existing := ReadKvFile(text);
      var lines, dirty := existing, false;
      var s := Resolved(session, existing, SESSION);
      if s.None? {
        lines := SetKv(lines, SESSION, tokens.session);
        dirty := true;
      }
      var i := Resolved(internal, existing, INTERNAL);
      if i.None? {
        lines := SetKv(lines, INTERNAL, tokens.internal);
        dirty := true;
      }
      if dirty { text := WriteKvFile(header, lines); }
      secrets := Secrets(SecretOr(s, tokens.session), SecretOr(i, tokens.internal));
    }

    /** Adds the administrator's entries to what the file holds. */
    method WriteRootAdmin(header: seq<string>, user: string, password: string, at: string)
      modifies this
      ensures text == FileText(header, AdminLines(Read(old(text)), user, password, at))
    {
      var lines := ReadKvFile(text);
      lines := SetKv(lines, "username", user);
      lines := SetKv(lines, "password", password);
      lines := SetKv(lines, "role", "root");
      lines := SetKv(lines, "generated_at", at);
      text := WriteKvFile(header, lines);
    }
  }

  /** What one boot returns and writes: each secret is the first of config,
      environment and file that is not blank, trimmed, and else the new token; the
      file is written only when a token was used. */
  lemma BootExact(session: Sources, internal: Sources, header: seq<string>, file: string, tokens: Secrets)
    ensures var b := BootOnce(session, internal, header, file, tokens);
            && b.secrets.session == Chosen(session, Get(Read(file), "session_secret"), tokens.session)
            && b.secrets.internal == Chosen(internal, Get(Read(file), "internal_secret"), tokens.internal)
            && (b.file != file ==> !Given(session, Get(Read(file), "session_secret"))
                                   || !Given(internal, Get(Read(file), "internal_secret")))
  {
    ResolvedUnfolds(session, Read(file), SESSION);
    ResolvedUnfolds(internal, Read(file), INTERNAL);
  }

  predicate Shows(o: Option<string>) {
    o.Some? && Trim(o.value) != ""
  }

  predicate Given(from: Sources, stored: Option<string>) {
    Shows(from.config) || Shows(from.environment) || Shows(stored)
  }

  function Chosen(from: Sources, stored: Option<string>, token: string): string {
    if Shows(from.config) then Trim(from.config.value)
    else if Shows(from.environment) then Trim(from.environment.value)
    else if Shows(stored) then Trim(stored.value)
    else token
  }

  /** The administrator's entries are read back, and the other entries stay. */
  lemma AdminReads(pairs: seq<Pair>, user: string, password: string, at: string, key: string)
    ensures Get(AdminLines(pairs, user, password, at), key)
         == if SameKey("generated_at", key) then Some(at)
            else if SameKey("role", key) then Some("root")
            else if SameKey("password", key) then Some(password)
            else if SameKey("username", key) then Some(user)
            else Get(pairs, key)
  {
    var a := Set(pairs, "username", user);
    var b := Set(a, "password", password);
    GetSet(pairs, "username", user, key);
    GetSet(a, "password", password, key);
    GetSet(b, "role", "root", key);
    GetSet(Set(b, "role", "root"), "generated_at", at, key);
  }

  // ------------------------------------------------------------------ stability

  /** The length an administrator's name is cut to. */
  const SHORT := 12

  /** A generated token: not blank, trimmed, on one line. */
  ghost predicate Token(t: string) {
    t != "" && Trimmed(t) && Free(t, '\n')
  }

  ghost predicate Sound(e: Event) {
    match e
    case BootAgain(tokens) => Token(tokens.session) && Token(tokens.internal)
    case AdminWritten(top, user, password, at) =>
      Header(top) && |user| <= SHORT && Free(password, '\n') && Free(at, '\n')
  }

  /** The file settles both secrets. */
  predicate Settles(session: Sources, internal: Sources, file: string, secrets: Secrets) {
    && Resolved(session, Read(file), SESSION) == Some(secrets.session)
    && Resolved(internal, Read(file), INTERNAL) == Some(secrets.internal)
  }

  /** Trimming the values, as a rewrite does, changes no resolved secret. */
  lemma {:induction false} GetTrimmed(pairs: seq<Pair>, key: string)
    ensures Get(TrimmedValues(pairs), key)
         == match Get(pairs, key) case Some(v) => Some(Trim(v)) case None => None
  {
    if pairs != [] {
      GetTrimmed(pairs[1..], key);
      assert TrimmedValues(pairs)[1..] == TrimmedValues(pairs[1..]);
    }
  }

  lemma ResolvedUnfolds(from: Sources, pairs: seq<Pair>, key: string)
    ensures Resolved(from, pairs, key)
         == if from.config.Some? && Trim(from.config.value) != "" then Some(Trim(from.config.value))
            else if from.environment.Some? && Trim(from.environment.value) != "" then Some(Trim(from.environment.value))
            else if Get(pairs, key).Some? && Trim(Get(pairs, key).value) != "" then Some(Trim(Get(pairs, key).value))
            else None
  {
    var e := [Get(pairs, key)];
    var d := [from.environment] + e;
    var c := [from.config] + d;
    assert c[1..] == d && d[1..] == e && e[1..] == [];
    assert FirstVisible(e) == if e[0].Some? && Trim(e[0].value) != "" then Some(Trim(e[0].value)) else None;
    assert FirstVisible(d) == if d[0].Some? && Trim(d[0].value) != "" then Some(Trim(d[0].value)) else FirstVisible(e);
    assert c == [from.config, from.environment, Get(pairs, key)];
  }

  // A value with line breaks spills over into lines of its own. When it is short,
  // none of them can spell the key of a secret.

  /** A pair that fits on its line, or whose key and value are both short. */
  ghost predicate Harmless(p: Pair) {
    PlainKey(p.key) && (Free(p.value, '\n') || (|p.key| <= SHORT && |p.value| <= SHORT))
  }

  lemma {:induction false} FirstBreak(v: string) returns (i: nat)
    requires !Free(v, '\n')
    ensures i < |v| && v[i] == '\n' && Free(v[..i], '\n')
  {
    if v[0] == '\n' {
      i := 0;
    } else {
      assert v == [v[0]] + v[1..];
      var j := FirstBreak(v[1..]);
      i := j + 1;
      assert v[..i] == [v[0]] + v[1..][..j];
    }
  }

  lemma BrokenAt(v: string, i: nat, rest: string)
    requires i < |v| && v[i] == '\n'
    ensures v + "\n" + rest == v[..i] + "\n" + (v[i + 1..] + "\n" + rest)
  {
  }

  lemma GetSkips(first: seq<Pair>, pairs: seq<Pair>, key: string)
    requires |first| <= 1 && forall i :: 0 <= i < |first| ==> !SameKey(first[i].key, key)
    ensures Get(first + pairs, key) == Get(pairs, key)
  {
    if first == [] {
      assert first + pairs == pairs;
    } else {
      assert (first + pairs)[1..] == pairs;
    }
  }

  /** A short line has a short key. */
  lemma ShortLine(line: string)
    requires |line| <= SHORT
    ensures |Kept(line)| <= 1 && forall i :: 0 <= i < |Kept(line)| ==> |Kept(line)[i].key| <= SHORT
  {
    TrimLength(line);
    if ParsedLine(line).Some? {
      CutShape(Trim(line));
      TrimLength(Cut(Trim(line)).value.0);
    }
  }

  /** Short lines in front of a file do not hide or show a longer key. */
  lemma {:induction false} ShortLines(v: string, rest: string, key: string)
    requires |v| <= SHORT < |key|
    ensures Get(Read(v + "\n" + rest), key) == Get(Read(rest), key)
    decreases |v|
  {
    if Free(v, '\n') {
      ShortLine(v);
      ReadLine(v, rest);
      GetSkips(Kept(v), Read(rest), key);
    } else {
      var i := FirstBreak(v);
      var more := v[i + 1..] + "\n" + rest;
      BrokenAt(v, i, rest);
      ShortLine(v[..i]);
      ReadLine(v[..i], more);
      GetSkips(Kept(v[..i]), Read(more), key);
      ShortLines(v[i + 1..], rest, key);
    }
  }

  lemma SpilledText(p: Pair, i: nat, rest: string)
    requires i < |p.value| && p.value[i] == '\n'
    ensures LineText(p) + "\n" + rest
         == LineText(Pair(p.key, p.value[..i])) + "\n" + (p.value[i + 1..] + "\n" + rest)
  {
    var key := p.key + "=";
    BrokenAt(p.value, i, rest);
    assert key + p.value + "\n" + rest == key + (p.value + "\n" + rest);
    assert key + p.value[..i] + "\n" + (p.value[i + 1..] + "\n" + rest)
        == key + (p.value[..i] + "\n" + (p.value[i + 1..] + "\n" + rest));
  }

  lemma SpilledPair(p: Pair, rest: string, key: string)
    requires Harmless(p) && !Free(p.value, '\n') && |key| > SHORT
    ensures Get(Read(LineText(p) + "\n" + rest), key) == Get(Read(rest), key)
  {
    var v := p.value;
    var i := FirstBreak(v);
    var more := v[i + 1..] + "\n" + rest;
    SpilledText(p, i, rest);
    ReadPair(Pair(p.key, v[..i]), more);
    GetSkips([Pair(p.key, Trim(v[..i]))], Read(more), key);
    ShortLines(v[i + 1..], rest, key);
  }

  /** A long key reads back as it was written, whatever spills over. */
  lemma {:induction false} LongKeyReads(pairs: seq<Pair>, key: string)
    requires |key| > SHORT && forall i :: 0 <= i < |pairs| ==> Harmless(pairs[i])
    ensures Get(Read(Printed(LineTexts(pairs))), key) == Get(TrimmedValues(pairs), key)
  {
    if pairs == [] {
      assert Printed(LineTexts(pairs)) == "" && Read("") == [];
    } else {
      var rest := Printed(LineTexts(pairs[1..]));
      LongKeyReads(pairs[1..], key);
      FirstPair(pairs);
      var first := Pair(pairs[0].key, Trim(pairs[0].value));
      assert ([first] + TrimmedValues(pairs[1..]))[1..] == TrimmedValues(pairs[1..]);
      if Free(pairs[0].value, '\n') {
        ReadPair(pairs[0], rest);
        assert ([first] + Read(rest))[1..] == Read(rest);
      } else {
        SpilledPair(pairs[0], rest, key);
      }
    }
  }

  /** A rewrite that leaves a secret's value alone leaves its resolution alone. */
  lemma ResolvedAfterWrite(from: Sources, header: seq<string>, pairs: seq<Pair>, lines: seq<Pair>, key: string)
    requires Header(header) && Get(lines, key) == Get(pairs, key) && |key| > SHORT
    requires forall i :: 0 <= i < |lines| ==> Harmless(lines[i])
    ensures Resolved(from, Read(FileText(header, lines)), key) == Resolved(from, pairs, key)
  {
    ReadHeader(header, Printed(LineTexts(lines)));
    LongKeyReads(lines, key);
    GetTrimmed(lines, key);
    if Get(lines, key).Some? { TrimTwice(Get(lines, key).value); }
    ResolvedUnfolds(from, pairs, key);
    ResolvedUnfolds(from, Read(FileText(header, lines)), key);
  }

  /** A rewrite that stores a token under the key makes it the resolution, unless
      another source already decides. */
  lemma ResolvedAfterToken(from: Sources, header: seq<string>, pairs: seq<Pair>, lines: seq<Pair>, key: string,
                           token: string)
    requires Header(header) && Writable(lines) && Token(token)
    requires Resolved(from, pairs, key) == None && Get(lines, key) == Some(token)
    ensures Resolved(from, Read(FileText(header, lines)), key) == Some(token)
  {
    FileReads(header, lines);
    GetTrimmed(lines, key);
    TrimFixed(token);
    ResolvedUnfolds(from, pairs, key);
    ResolvedUnfolds(from, TrimmedValues(lines), key);
  }

  lemma KeysApart()
    ensures !SameKey(SESSION, INTERNAL) && !SameKey(INTERNAL, SESSION)
    ensures PlainKey(SESSION) && PlainKey(INTERNAL)
  {
  }

  lemma ReadIsWritable(file: string)
    ensures Writable(Read(file))
  {
    RewriteIsFaithful([], file);
  }

  lemma BootLinesHold(session: Sources, internal: Sources, existing: seq<Pair>, tokens: Secrets)
    requires Writable(existing) && Token(tokens.session) && Token(tokens.internal)
    ensures var lines := BootLines(session, internal, existing, tokens);
            && Writable(lines)
            && Get(lines, SESSION) == 
                 (if Resolved(session, existing, SESSION).Some? then Get(existing, SESSION) else Some(tokens.session))
            && Get(lines, INTERNAL) == 
                 (if Resolved(internal, existing, INTERNAL).Some? then Get(existing, INTERNAL)
                  else Some(tokens.internal))
  {
    KeysApart();
    var first := WithSecret(session, existing, existing, SESSION, tokens.session);
    SetWritable(existing, SESSION, tokens.session);
    SetWritable(first, INTERNAL, tokens.internal);
    GetSet(existing, SESSION, tokens.session, SESSION);
    GetSet(existing, SESSION, tokens.session, INTERNAL);
    GetSet(first, INTERNAL, tokens.internal, SESSION);
    GetSet(first, INTERNAL, tokens.internal, INTERNAL);
  }

  /** A boot leaves a file that settles the secrets it returned. */
  lemma BootSettles(session: Sources, internal: Sources, header: seq<string>, file: string, tokens: Secrets)
    requires Header(header) && Token(tokens.session) && Token(tokens.internal)
    ensures var b := BootOnce(session, internal, header, file, tokens);
            Settles(session, internal, b.file, b.secrets)
  {
    var existing := Read(file);
    var s, i := Resolved(session, existing, SESSION), Resolved(internal, existing, INTERNAL);
    if s.None? || i.None? {
      var lines := BootLines(session, internal, existing, tokens);
      ReadIsWritable(file);
      BootLinesHold(session, internal, existing, tokens);
      if s.Some? { ResolvedAfterWrite(session, header, existing, lines, SESSION); }
      else { ResolvedAfterToken(session, header, existing, lines, SESSION, tokens.session); }
      if i.Some? { ResolvedAfterWrite(internal, header, existing, lines, INTERNAL); }
      else { ResolvedAfterToken(internal, header, existing, lines, INTERNAL, tokens.internal); }
    }
  }

  /** Once the file settles the secrets, a boot returns them and writes nothing. */
  lemma SettledBoot(session: Sources, internal: Sources, header: seq<string>, file: string, secrets: Secrets,
                    tokens: Secrets)
    requires Settles(session, internal, file, secrets)
    ensures BootOnce(session, internal, header, file, tokens) == Booted(secrets, file)
  {
  }

  lemma AdminKeysApart(key: string)
    requires key == SESSION || key == INTERNAL
    ensures !SameKey("username", key) && !SameKey("password", key)
    ensures !SameKey("role", key) && !SameKey("generated_at", key)
  {
    assert |"password"| == 8 && |"generated_at"| == 12 && |SESSION| == 14 && |INTERNAL| == 15;
  }

  lemma AdminPlainKeys()
    ensures PlainKey("username") && PlainKey("password") && PlainKey("role") && PlainKey("generated_at")
    ensures Free("root", '\n')
  {
  }

  lemma AdminGet(pairs: seq<Pair>, user: string, password: string, at: string, key: string)
    requires key == SESSION || key == INTERNAL
    ensures Get(AdminLines(pairs, user, password, at), key) == Get(pairs, key)
  {
    AdminKeysApart(key);
    var a := Set(pairs, "username", user);
    var b := Set(a, "password", password);
    var c := Set(b, "role", "root");
    GetSet(pairs, "username", user, key);
    GetSet(a, "password", password, key);
    GetSet(b, "role", "root", key);
    GetSet(c, "generated_at", at, key);
  }

  ghost predicate AllHarmless(pairs: seq<Pair>) {
    forall i :: 0 <= i < |pairs| ==> Harmless(pairs[i])
  }

  lemma {:induction false} SetHarmless(pairs: seq<Pair>, key: string, value: string)
    requires AllHarmless(pairs) && PlainKey(key) && |key| <= SHORT && (Free(value, '\n') || |value| <= SHORT)
    ensures AllHarmless(Set(pairs, key, value))
  {
    if pairs != [] && !SameKey(pairs[0].key, key) {
      SetHarmless(pairs[1..], key, value);
    }
  }

  lemma AdminHarmless(pairs: seq<Pair>, user: string, password: string, at: string)
    requires AllHarmless(pairs) && |user| <= SHORT && Free(password, '\n') && Free(at, '\n')
    ensures AllHarmless(AdminLines(pairs, user, password, at))
  {
    AdminPlainKeys();
    var a := Set(pairs, "username", user);
    var b := Set(a, "password", password);
    var c := Set(b, "role", "root");
    SetHarmless(pairs, "username", user);
    SetHarmless(a, "password", password);
    SetHarmless(b, "role", "root");
    SetHarmless(c, "generated_at", at);
  }

  lemma EventKeepsSettled(session: Sources, internal: Sources, header: seq<string>, file: string, e: Event,
                          secrets: Secrets)
    requires Header(header) && Sound(e) && Settles(session, internal, file, secrets)
    ensures Settles(session, internal, After(session, internal, header, file, e), secrets)
  {
    match e
    case BootAgain(tokens) => SettledBoot(session, internal, header, file, secrets, tokens);
    case AdminWritten(top, user, password, at) =>
      var lines := AdminLines(Read(file), user, password, at);
      ReadIsWritable(file);
      AdminHarmless(Read(file), user, password, at);
      AdminGet(Read(file), user, password, at, SESSION);
      AdminGet(Read(file), user, password, at, INTERNAL);
      ResolvedAfterWrite(session, top, Read(file), lines, SESSION);
      ResolvedAfterWrite(internal, top, Read(file), lines, INTERNAL);
  }

  lemma {:induction false} StaysSettled(session: Sources, internal: Sources, header: seq<string>, file: string,
                                        events: seq<Event>, secrets: Secrets)
    requires Header(header) && Settles(session, internal, file, secrets)
    requires forall i :: 0 <= i < |events| ==> Sound(events[i])
    ensures Settles(session, internal, AfterAll(session, internal, header, file, events), secrets)
  {
    if events != [] {
      var before := events[..|events| - 1];
      StaysSettled(session, internal, header, file, before, secrets);
      EventKeepsSettled(session, internal, header, AfterAll(session, internal, header, file, before),
                        events[|events| - 1], secrets);
    }
  }

  /** With the same configuration and environment, every boot after the first
      returns the first boot's secrets and leaves the file alone, whatever the
      file held to begin with, however many boots and administrator rewrites came
      between, whatever random tokens they drew and whatever name, line breaks
      included, the administrator was given. */
  lemma SecretsAreStable(session: Sources, internal: Sources, header: seq<string>, file: string, first: Secrets,
                         events: seq<Event>, later: Secrets)
    requires Header(header) && Token(first.session) && Token(first.internal)
    requires forall i :: 0 <= i < |events| ==> Sound(events[i])
    ensures var b := BootOnce(session, internal, header, file, first);
            var now := AfterAll(session, internal, header, b.file, events);
            BootOnce(session, internal, header, now, later) == Booted(b.secrets, now)
  {
    var b := BootOnce(session, internal, header, file, first);
    BootSettles(session, internal, header, file, first);
    StaysSettled(session, internal, header, b.file, events, b.secrets);
    SettledBoot(session, internal, header, AfterAll(session, internal, header, b.file, events), b.secrets, later);
  }
}
