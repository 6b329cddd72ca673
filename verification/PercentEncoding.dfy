/** Percent-encoding of form values (section 2.1 of RFC 3986) and the refresh
    request bodies built from it, `application/x-www-form-urlencoded`. */
module PercentEncoding {
  import opened Text

  type Byte = b: int | 0 <= b < 256

  predicate Unreserved(b: Byte) {
    || 65 <= b <= 90 || 97 <= b <= 122 || 48 <= b <= 57
    || b == 45 || b == 95 || b == 46 || b == 126
  }

  function HexDigit(n: int): char
    requires 0 <= n < 16
  {
    if n < 10 then (48 + n) as char else (55 + n) as char
  }

  function EncodedByte(b: Byte): string {
    if Unreserved(b) then [b as char] else ['%', HexDigit(b / 16), HexDigit(b % 16)]
  }

  function Encoded(bytes: seq<Byte>): string {
    if bytes == [] then "" else EncodedByte(bytes[0]) + Encoded(bytes[1..])
  }

  method PercentEncode(bytes: seq<Byte>) returns (out: string)
    ensures out == Encoded(bytes)
  {
    out := "";
    for n := 0 to |bytes|
      invariant out + Encoded(bytes[n..]) == Encoded(bytes)
    {
      EncodedNext(out, bytes, n);
      out := out + EncodedByte(bytes[n]);
    }
    assert out + Encoded(bytes[|bytes|..]) == out;
  }

  lemma EncodedNext(out: string, bytes: seq<Byte>, n: nat)
    requires n < |bytes|
    ensures out + Encoded(bytes[n..]) == (out + EncodedByte(bytes[n])) + Encoded(bytes[n + 1..])
  {
    assert bytes[n..][1..] == bytes[n + 1..];
    assert Encoded(bytes[n..]) == EncodedByte(bytes[n]) + Encoded(bytes[n + 1..]);
  }

  // ------------------------------------------------- the receiving side, reference

  predicate IsHex(c: char) {
    '0' <= c <= '9' || 'A' <= c <= 'F' || 'a' <= c <= 'f'
  }

  function HexValue(c: char): int
    requires IsHex(c)
  {
    if c <= '9' then c as int - 48 else if c <= 'F' then c as int - 55 else c as int - 87
  }

  /** The form decoder: a plus is a space, a percent sign introduces two hex
      digits, anything else stands for itself. */
  function Decoded(s: string): seq<Byte> {
    if s == "" then []
    else if s[0] == '%' && |s| >= 3 && IsHex(s[1]) && IsHex(s[2])
    then [HexValue(s[1]) * 16 + HexValue(s[2])] + Decoded(s[3..])
    else if s[0] == '+' then [32] + Decoded(s[1..])
    else [s[0] as int % 256] + Decoded(s[1..])
  }

  datatype Field = Field(name: string, value: seq<Byte>)

  /** One `name=value` pair, cut at the first equals sign. */
  function ParsedPair(piece: string): Field {
    var parts := Split(piece, '=');
    Field(parts[0], Decoded(Join(parts[1..], '=')))
  }

  function ParsedPairs(pieces: seq<string>): seq<Field> {
    seq(|pieces|, i requires 0 <= i < |pieces| => ParsedPair(pieces[i]))
  }

  function ParsedForm(body: string): seq<Field> {
    ParsedPairs(Split(body, '&'))
  }

  // ---------------------------------------------------------------- round trip

  predicate Safe(c: char) {
    || 'A' <= c <= 'Z' || 'a' <= c <= 'z' || '0' <= c <= '9'
    || c == '-' || c == '_' || c == '.' || c == '~' || c == '%'
  }

  /** The encoding uses unreserved characters and percent signs only, so it
      cannot be mistaken for a separator, whatever the bytes. */
  lemma {:induction false} EncodedIsSafe(bytes: seq<Byte>)
    ensures forall i :: 0 <= i < |Encoded(bytes)| ==> Safe(Encoded(bytes)[i])
    ensures Free(Encoded(bytes), '&') && Free(Encoded(bytes), '=')
  {
    if bytes != [] { EncodedIsSafe(bytes[1..]); }
  }

  predicate UpperHex(c: char) {
    '0' <= c <= '9' || 'A' <= c <= 'F'
  }

  /** Letters, digits and `-._~` stand for themselves; any other byte is a percent
      sign and two upper-case hex digits, the higher first. */
  lemma ByteExact(b: Byte)
    ensures var c, text := b as char, EncodedByte(b);
            if 'A' <= c <= 'Z' || 'a' <= c <= 'z' || '0' <= c <= '9' || c in "-._~" then text == [c]
            else && |text| == 3 && text[0] == '%' && UpperHex(text[1]) && UpperHex(text[2])
                 && HexValue(text[1]) * 16 + HexValue(text[2]) == b
  {
    HexPair(b);
    assert b as char in "-._~" <==> b == 45 || b == 46 || b == 95 || b == 126;
  }

  lemma {:induction false} EncodedAppend(a: seq<Byte>, b: seq<Byte>)
    ensures Encoded(a + b) == Encoded(a) + Encoded(b)
  {
    if a == [] {
      assert a + b == b;
    } else {
      assert (a + b)[1..] == a[1..] + b;
      EncodedAppend(a[1..], b);
    }
  }

  lemma HexPair(b: Byte)
    ensures var hi, lo := HexDigit(b / 16), HexDigit(b % 16);
            IsHex(hi) && IsHex(lo) && HexValue(hi) * 16 + HexValue(lo) == b
  {
    assert HexValue(HexDigit(b / 16)) == b / 16;
    assert HexValue(HexDigit(b % 16)) == b % 16;
  }

  lemma DecodePlain(c: char, rest: string)
    requires c != '%' && c != '+' && c as int < 256
    ensures Decoded([c] + rest) == [c as int] + Decoded(rest)
  {
    assert ([c] + rest)[1..] == rest;
  }

  lemma DecodeHex(hi: char, lo: char, rest: string)
    requires IsHex(hi) && IsHex(lo)
    ensures Decoded(['%', hi, lo] + rest) == [HexValue(hi) * 16 + HexValue(lo)] + Decoded(rest)
  {
    assert (['%', hi, lo] + rest)[3..] == rest;
  }

  lemma DecodeByte(b: Byte, rest: string)
    ensures Decoded(EncodedByte(b) + rest) == [b] + Decoded(rest)
  {
    if Unreserved(b) {
      DecodePlain(b as char, rest);
    } else {
      HexPair(b);
      DecodeHex(HexDigit(b / 16), HexDigit(b % 16), rest);
    }
  }

  /** Decoding undoes encoding, for every sequence of bytes. */
  lemma {:induction false} DecodeEncode(bytes: seq<Byte>)
    ensures Decoded(Encoded(bytes)) == bytes
  {
    if bytes != [] {
      DecodeEncode(bytes[1..]);
      DecodeByte(bytes[0], Encoded(bytes[1..]));
    }
  }

  lemma {:induction false} UnreservedUnchanged(s: string)
    requires forall i :: 0 <= i < |s| ==> s[i] as int < 128 && Unreserved(s[i] as int)
    ensures Encoded(Ascii(s)) == s
  {
    if s != "" {
      UnreservedUnchanged(s[1..]);
      assert Ascii(s)[1..] == Ascii(s[1..]);
    }
  }

  // -------------------------------------------------------------- request bodies

  function Ascii(s: string): seq<Byte> {
    seq(|s|, i requires 0 <= i < |s| => s[i] as int % 128)
  }

  function Pair(f: Field): string {
    f.name + "=" + Encoded(f.value)
  }

  function Pairs(fields: seq<Field>): seq<string> {
    seq(|fields|, i requires 0 <= i < |fields| => Pair(fields[i]))
  }

  ghost predicate PlainName(s: string) {
    Free(s, '&') && Free(s, '=')
  }

  lemma PairParses(f: Field)
    requires PlainName(f.name)
    ensures ParsedPair(Pair(f)) == f && Free(Pair(f), '&')
  {
    EncodedIsSafe(f.value);
    DecodeEncode(f.value);
    assert Pair(f) == f.name + ['='] + Encoded(f.value);
    SplitAt(f.name, Encoded(f.value), '=');
    SplitFree(Encoded(f.value), '=');
    assert Split(Pair(f), '=') == [f.name, Encoded(f.value)];
  }

  /** A form of any fields is read back field by field, whatever bytes the values
      hold. */
  lemma FormRoundTrip(fields: seq<Field>)
    requires |fields| > 0 && forall i :: 0 <= i < |fields| ==> PlainName(fields[i].name)
    ensures ParsedForm(Join(Pairs(fields), '&')) == fields
  {
    forall i | 0 <= i < |fields| ensures ParsedPair(Pairs(fields)[i]) == fields[i] && Free(Pairs(fields)[i], '&') {
      PairParses(fields[i]);
    }
    SplitJoin(Pairs(fields), '&');
  }

  /** The text a format string such as `a={}&b={}` produces. */
  function Body(fields: seq<Field>): string {
    if fields == [] then ""
    else if |fields| == 1 then Pair(fields[0])
    else Body(fields[..|fields| - 1]) + "&" + Pair(fields[|fields| - 1])
  }

  lemma {:induction false} BodyIsJoin(fields: seq<Field>)
    requires fields != []
    ensures Body(fields) == Join(Pairs(fields), '&')
  {
    if |fields| > 1 {
      var n := |fields| - 1;
      BodyIsJoin(fields[..n]);
      JoinPush(Pairs(fields[..n]), Pair(fields[n]));
      assert Pairs(fields) == Pairs(fields[..n]) + [Pair(fields[n])];
    }
  }

  lemma {:induction false} JoinPush(parts: seq<string>, last: string)
    requires parts != []
    ensures Join(parts + [last], '&') == Join(parts, '&') + "&" + last
  {
    if |parts| > 1 {
      JoinPush(parts[1..], last);
      assert (parts + [last])[1..] == parts[1..] + [last];
    }
  }

  /** A literal value of unreserved characters is written as it is. */
  lemma GrantPair()
    ensures Pair(Field("grant_type", Ascii("refresh_token"))) == "grant_type=refresh_token"
  {
    UnreservedUnchanged("refresh_token");
    assert "grant_type" + "=" + "refresh_token" == "grant_type=refresh_token";
  }

  lemma BodyReads(fields: seq<Field>)
    requires fields != [] && forall i :: 0 <= i < |fields| ==> PlainName(fields[i].name)
    ensures ParsedForm(Body(fields)) == fields
  {
    BodyIsJoin(fields);
    FormRoundTrip(fields);
  }

  /** The body of the Codex refresh request. */
  function CodexBody(refreshToken: seq<Byte>, clientId: seq<Byte>): string {
    "grant_type=refresh_token" + "&" + ("refresh_token=" + Encoded(refreshToken)) + "&"
    + ("client_id=" + Encoded(clientId)) + "&" + ("scope=" + Encoded(Ascii("openid profile email")))
  }

  /** The body of the xAI refresh request. */
  function XaiBody(clientId: seq<Byte>, refreshToken: seq<Byte>): string {
    "grant_type=refresh_token" + "&" + ("client_id=" + Encoded(clientId)) + "&"
    + ("refresh_token=" + Encoded(refreshToken))
  }

  lemma BodyOfThree(a: Field, b: Field, c: Field)
    ensures Body([a, b, c]) == Pair(a) + "&" + Pair(b) + "&" + Pair(c)
  {
    assert [a, b, c][..2] == [a, b] && [a, b][..1] == [a];
    assert Body([a]) == Pair(a);
    assert Body([a, b]) == Body([a]) + "&" + Pair(b);
  }

  lemma BodyOfFour(a: Field, b: Field, c: Field, d: Field)
    ensures Body([a, b, c, d]) == Pair(a) + "&" + Pair(b) + "&" + Pair(c) + "&" + Pair(d)
  {
    BodyOfThree(a, b, c);
    assert [a, b, c, d][..3] == [a, b, c];
  }

  /** The names that the requests use. */
  lemma NamedPairs(value: seq<Byte>)
    ensures Pair(Field("refresh_token", value)) == "refresh_token=" + Encoded(value)
    ensures Pair(Field("client_id", value)) == "client_id=" + Encoded(value)
    ensures Pair(Field("scope", value)) == "scope=" + Encoded(value)
  {
    assert "refresh_token" + "=" == "refresh_token=" && "client_id" + "=" == "client_id=" && "scope" + "=" == "scope=";
  }

  lemma RequestNames()
    ensures PlainName("grant_type") && PlainName("refresh_token") && PlainName("client_id") && PlainName("scope")
  {
  }

  lemma CodexFieldsRead(grant: seq<Byte>, refreshToken: seq<Byte>, clientId: seq<Byte>, scope: seq<Byte>, first: string)
    requires Pair(Field("grant_type", grant)) == first
    ensures ParsedForm(first + "&" + ("refresh_token=" + Encoded(refreshToken)) + "&"
                       + ("client_id=" + Encoded(clientId)) + "&" + ("scope=" + Encoded(scope)))
         == [Field("grant_type", grant), Field("refresh_token", refreshToken), Field("client_id", clientId),
             Field("scope", scope)]
  {
    var a, b := Field("grant_type", grant), Field("refresh_token", refreshToken);
    var c, d := Field("client_id", clientId), Field("scope", scope);
    NamedPairs(refreshToken);
    NamedPairs(clientId);
    NamedPairs(scope);
    BodyOfFour(a, b, c, d);
    RequestNames();
    BodyReads([a, b, c, d]);
  }

  /** The token endpoint reads the Codex refresh request as exactly the fields
      that were meant, whatever the refresh token and client id. */
  lemma CodexBodyReads(refreshToken: seq<Byte>, clientId: seq<Byte>)
    ensures ParsedForm(CodexBody(refreshToken, clientId))
         == [Field("grant_type", Ascii("refresh_token")), Field("refresh_token", refreshToken),
             Field("client_id", clientId), Field("scope", Ascii("openid profile email"))]
  {
    GrantPair();
    CodexFieldsRead(Ascii("refresh_token"), refreshToken, clientId, Ascii("openid profile email"),
                    "grant_type=refresh_token");
  }

  /** And so the xAI refresh request. */
  lemma XaiBodyReads(clientId: seq<Byte>, refreshToken: seq<Byte>)
    ensures ParsedForm(XaiBody(clientId, refreshToken))
         == [Field("grant_type", Ascii("refresh_token")), Field("client_id", clientId),
             Field("refresh_token", refreshToken)]
  {
    var a, b, c := Field("grant_type", Ascii("refresh_token")), Field("client_id", clientId),
                   Field("refresh_token", refreshToken);
    GrantPair();
    NamedPairs(clientId);
    NamedPairs(refreshToken);
    BodyOfThree(a, b, c);
    RequestNames();
    BodyReads([a, b, c]);
  }
}
