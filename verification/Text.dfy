/** The string operations the models share: Rust's `trim`, `split`, `join`,
    `lines` and `split_once`, decimal numbers, and lexicographic order. */
module Text {

  // ------------------------------------------------------------------- trim

  /** Unicode White_Space, the class `str::trim` removes. */
  predicate IsSpace(c: char) {
    || '\U{9}' <= c <= '\U{D}' || c == ' ' || c == '\U{85}' || c == '\U{A0}' || c == '\U{1680}'
    || '\U{2000}' <= c <= '\U{200A}' || c == '\U{2028}' || c == '\U{2029}' || c == '\U{202F}'
    || c == '\U{205F}' || c == '\U{3000}'
  }

  function TrimStart(s: string): string {
    if s != "" && IsSpace(s[0]) then TrimStart(s[1..]) else s
  }

  function TrimEnd(s: string): string {
    if s != "" && IsSpace(s[|s| - 1]) then TrimEnd(s[..|s| - 1]) else s
  }

  function Trim(s: string): string {
    TrimEnd(TrimStart(s))
  }

  predicate Trimmed(s: string) {
    s == "" || (!IsSpace(s[0]) && !IsSpace(s[|s| - 1]))
  }

  lemma {:induction false} TrimEndPrefix(s: string)
    ensures TrimEnd(s) <= s
    ensures TrimEnd(s) == "" || !IsSpace(TrimEnd(s)[|TrimEnd(s)| - 1])
  {
    if s != "" && IsSpace(s[|s| - 1]) { TrimEndPrefix(s[..|s| - 1]); }
  }

  lemma {:induction false} TrimStartShape(s: string)
    ensures TrimStart(s) == "" || !IsSpace(TrimStart(s)[0])
    ensures forall c | c in TrimStart(s) :: c in s
  {
    if s != "" && IsSpace(s[0]) { TrimStartShape(s[1..]); }
  }

  /** Trimming always yields a trimmed string made of the same characters. */
  lemma TrimShape(s: string)
    ensures Trimmed(Trim(s))
    ensures forall c | c in Trim(s) :: c in s
  {
    TrimStartShape(s);
    TrimEndPrefix(TrimStart(s));
  }

  /** Trimming changes exactly the strings that are not already trimmed. */
  lemma TrimFixed(s: string)
    ensures Trim(s) == s <==> Trimmed(s)
  {
    TrimShape(s);
  }

  lemma {:induction false} TrimStartLength(s: string)
    ensures |TrimStart(s)| <= |s|
  {
    if s != "" && IsSpace(s[0]) { TrimStartLength(s[1..]); }
  }

  lemma TrimLength(s: string)
    ensures |Trim(s)| <= |s|
  {
    TrimStartLength(s);
    TrimEndPrefix(TrimStart(s));
  }

  lemma TrimTwice(s: string)
    ensures Trim(Trim(s)) == Trim(s)
  {
    TrimShape(s);
    TrimFixed(Trim(s));
  }

  lemma {:induction false} TrimStartSuffix(s: string, t: string)
    requires TrimStart(s) != ""
    ensures TrimStart(s + t) == TrimStart(s) + t
  {
    if s != "" && IsSpace(s[0]) {
      assert (s + t)[1..] == s[1..] + t;
      TrimStartSuffix(s[1..], t);
    }
  }

  /** Appending white space does not change what trimming leaves. */
  lemma TrimAppendSpace(s: string, c: char)
    requires IsSpace(c)
    ensures Trim(s + [c]) == Trim(s)
  {
    if TrimStart(s) == "" {
      AllSpace(s, c);
    } else {
      TrimStartSuffix(s, [c]);
      assert (TrimStart(s) + [c])[..|TrimStart(s)|] == TrimStart(s);
    }
  }

  lemma {:induction false} AllSpace(s: string, c: char)
    requires TrimStart(s) == "" && IsSpace(c)
    ensures TrimStart(s + [c]) == ""
  {
    if s == "" {
      assert s + [c] == [c];
    } else {
      assert (s + [c])[1..] == s[1..] + [c];
      AllSpace(s[1..], c);
    }
  }

  lemma {:induction false} TrimStartEmpty(s: string)
    requires TrimStart(s) == ""
    ensures forall c | c in s :: IsSpace(c)
  {
    if s != "" { TrimStartEmpty(s[1..]); }
  }

  /** Trimming leaves nothing exactly of white space. */
  lemma TrimsAway(s: string)
    ensures Trim(s) == "" <==> forall c | c in s :: IsSpace(c)
  {
    TrimShape(s);
    if Trim(s) == "" {
      TrimStartShape(s);
      var t := TrimStart(s);
      if t != "" { TrimKeepsFirst(t); }
      TrimStartEmpty(s);
    } else {
      assert Trim(s)[0] in Trim(s);
    }
  }

  lemma {:induction false} TrimKeepsFirst(t: string)
    requires t != "" && !IsSpace(t[0])
    ensures TrimEnd(t) != ""
  {
    if IsSpace(t[|t| - 1]) { TrimKeepsFirst(t[..|t| - 1]); }
  }

  // ----------------------------------------------------------- split and join

  /** `split(sep)`: always at least one piece. */
  function Split(s: string, sep: char): (parts: seq<string>)
    ensures |parts| > 0
    decreases |s|
  {
    if s == "" then [""]
    else
      var rest := Split(s[1..], sep);
      if s[0] == sep then [""] + rest else [[s[0]] + rest[0]] + rest[1..]
  }

  function Join(parts: seq<string>, sep: char): string {
    if |parts| == 0 then ""
    else if |parts| == 1 then parts[0]
    else parts[0] + [sep] + Join(parts[1..], sep)
  }

  ghost predicate Free(s: string, c: char) {
    c !in s
  }

  lemma {:induction false} SplitFree(s: string, sep: char)
    requires Free(s, sep)
    ensures Split(s, sep) == [s]
  {
    if s != "" {
      SplitFree(s[1..], sep);
      assert [s[0]] + s[1..] == s;
    }
  }

  lemma {:induction false} SplitAt(s: string, t: string, sep: char)
    requires Free(s, sep)
    ensures Split(s + [sep] + t, sep) == [s] + Split(t, sep)
  {
    if s == "" {
      assert (s + [sep] + t)[1..] == t;
    } else {
      assert (s + [sep] + t)[1..] == s[1..] + [sep] + t;
      SplitAt(s[1..], t, sep);
      assert [s[0]] + s[1..] == s;
    }
  }

  /** Splitting a join of separator-free pieces gives the pieces back. */
  lemma {:induction false} SplitJoin(parts: seq<string>, sep: char)
    requires |parts| > 0 && forall p | p in parts :: Free(p, sep)
    ensures Split(Join(parts, sep), sep) == parts
  {
    if |parts| == 1 {
      SplitFree(parts[0], sep);
    } else {
      SplitAt(parts[0], Join(parts[1..], sep), sep);
      SplitJoin(parts[1..], sep);
    }
  }

  lemma {:induction false} SplitPieces(s: string, sep: char)
    ensures forall p | p in Split(s, sep) :: Free(p, sep) && forall c | c in p :: c in s
  {
    if s != "" {
      SplitPieces(s[1..], sep);
      var rest := Split(s[1..], sep);
      forall p | p in Split(s, sep) ensures Free(p, sep) && forall c | c in p :: c in s {
        if s[0] != sep && p == [s[0]] + rest[0] {
          assert rest[0] in rest;
        } else {
          assert p == "" || p in rest;
        }
      }
    }
  }

  // ------------------------------------------------------ cleaned-up fragments

  /** `split(sep).map(trim).filter(non-empty)`. */
  function Fragments(s: string, sep: char): seq<string> {
    Clean(Split(s, sep))
  }

  function Clean(parts: seq<string>): seq<string> {
    if parts == [] then []
    else (if Trim(parts[0]) == "" then [] else [Trim(parts[0])]) + Clean(parts[1..])
  }

  /** A non-empty trimmed string without the separator. */
  ghost predicate Fragment(p: string, sep: char) {
    p != "" && Trimmed(p) && Free(p, sep)
  }

  lemma {:induction false} CleanFixed(parts: seq<string>)
    requires forall p | p in parts :: p != "" && Trimmed(p)
    ensures Clean(parts) == parts
  {
    if parts != [] {
      assert parts[0] in parts && forall p | p in parts[1..] :: p in parts;
      TrimFixed(parts[0]);
      CleanFixed(parts[1..]);
    }
  }

  lemma {:induction false} CleanPieces(parts: seq<string>, sep: char)
    requires forall p | p in parts :: Free(p, sep)
    ensures forall p | p in Clean(parts) :: Fragment(p, sep)
  {
    if parts != [] {
      assert parts[0] in parts && forall p | p in parts[1..] :: p in parts;
      TrimShape(parts[0]);
      CleanPieces(parts[1..], sep);
    }
  }

  lemma {:induction false} CleanNone(parts: seq<string>)
    requires forall p | p in parts :: Trim(p) == ""
    ensures Clean(parts) == []
  {
    if parts != [] {
      assert parts[0] in parts && forall p | p in parts[1..] :: p in parts;
      CleanNone(parts[1..]);
    }
  }

  /** White space has no fragments. */
  lemma BlankFragments(s: string, sep: char)
    requires Trim(s) == ""
    ensures Fragments(s, sep) == []
  {
    TrimsAway(s);
    SplitPieces(s, sep);
    forall p | p in Split(s, sep) ensures Trim(p) == "" { TrimsAway(p); }
    CleanNone(Split(s, sep));
  }

  lemma FragmentsShape(s: string, sep: char)
    ensures forall p | p in Fragments(s, sep) :: Fragment(p, sep)
  {
    SplitPieces(s, sep);
    CleanPieces(Split(s, sep), sep);
  }

  /** Any list of fragments survives being joined and split again. */
  lemma FragmentsJoin(parts: seq<string>, sep: char)
    requires forall p | p in parts :: Fragment(p, sep)
    ensures Fragments(Join(parts, sep), sep) == parts
  {
    if parts == [] {
      assert Fragments("", sep) == Clean([""]);
    } else {
      SplitJoin(parts, sep);
      CleanFixed(parts);
    }
  }

  // ------------------------------------------------------------------- lines

  function StripCr(s: string): string {
    if s != "" && s[|s| - 1] == '\r' then s[..|s| - 1] else s
  }

  /** `lines()`: pieces ended by a line feed lose one carriage return, and an
      empty last piece is not a line. */
  function LinesOf(parts: seq<string>): seq<string> {
    if parts == [] then []
    else if |parts| == 1 then (if parts[0] == "" then [] else parts)
    else [StripCr(parts[0])] + LinesOf(parts[1..])
  }

  function Lines(s: string): seq<string> {
    LinesOf(Split(s, '\n'))
  }

  lemma TrimStripCr(s: string)
    ensures Trim(StripCr(s)) == Trim(s)
  {
    if s != "" && s[|s| - 1] == '\r' {
      assert s == s[..|s| - 1] + ['\r'];
      TrimAppendSpace(s[..|s| - 1], '\r');
    }
  }

  lemma {:induction false} CleanLines(parts: seq<string>)
    ensures Clean(LinesOf(parts)) == Clean(parts)
  {
    if |parts| > 1 {
      TrimStripCr(parts[0]);
      CleanLines(parts[1..]);
      var ls := [StripCr(parts[0])] + LinesOf(parts[1..]);
      assert ls[1..] == LinesOf(parts[1..]);
    }
  }

  // -------------------------------------------------------------- substrings

  /** ASCII lower case, as `to_ascii_lowercase`. */
  function LowerChar(c: char): char {
    if 'A' <= c <= 'Z' then ((c as int) + 32) as char else c
  }

  function Lower(s: string): string {
    seq(|s|, i requires 0 <= i < |s| => LowerChar(s[i]))
  }

  predicate StartsWith(s: string, part: string) {
    |part| <= |s| && s[..|part|] == part
  }

  predicate EndsWith(s: string, part: string) {
    |part| <= |s| && s[|s| - |part|..] == part
  }

  predicate Contains(s: string, part: string) {
    StartsWith(s, part) || (s != "" && Contains(s[1..], part))
  }

  /** `part` stands in `s` from position `i` on. */
  predicate PartAt(s: string, part: string, i: nat) {
    i + |part| <= |s| && s[i..i + |part|] == part
  }

  lemma {:induction false} ContainsExact(s: string, part: string)
    ensures Contains(s, part) <==> exists i: nat :: PartAt(s, part, i)
    decreases |s|, 1
  {
    if StartsWith(s, part) {
      assert PartAt(s, part, 0);
    } else {
      assert !PartAt(s, part, 0);
      if s != "" { ContainsLater(s, part); }
    }
  }

  lemma ContainsLater(s: string, part: string)
    requires s != "" && !PartAt(s, part, 0)
    ensures Contains(s[1..], part) <==> exists i: nat :: PartAt(s, part, i)
    decreases |s|, 0
  {
    ContainsExact(s[1..], part);
    if i: nat :| PartAt(s, part, i) {
      assert s[1..][i - 1..i - 1 + |part|] == s[i..i + |part|];
      assert PartAt(s[1..], part, i - 1);
    }
    if i: nat :| PartAt(s[1..], part, i) {
      assert s[i + 1..i + 1 + |part|] == s[1..][i..i + |part|];
      assert PartAt(s, part, i + 1);
    }
  }

  lemma EndsExact(s: string, part: string)
    ensures StartsWith(s, part) <==> exists rest :: s == part + rest
    ensures EndsWith(s, part) <==> exists rest :: s == rest + part
  {
    if StartsWith(s, part) { assert s == part + s[|part|..]; }
    if EndsWith(s, part) { assert s == s[..|s| - |part|] + part; }
  }

  // ------------------------------------------------------------ numbers, order

  function Digit(d: int): char
    requires 0 <= d <= 9
  {
    '0' + d as char
  }

  predicate IsDigit(c: char) {
    '0' <= c <= '9'
  }

  function DigitValue(c: char): int
    requires IsDigit(c)
  {
    c as int - '0' as int
  }

  /** Strict lexicographic order, as `Ord` on `str` (code points order as their
      UTF-8 bytes do). */
  predicate Less(a: string, b: string) {
    b != "" && (a == "" || a[0] < b[0] || (a[0] == b[0] && Less(a[1..], b[1..])))
  }

  predicate LessEq(a: string, b: string) {
    a == b || Less(a, b)
  }

  lemma {:induction false} LessTotal(a: string, b: string)
    ensures a == b || Less(a, b) || Less(b, a)
    ensures !(Less(a, b) && Less(b, a)) && !Less(a, a)
  {
    if a != "" && b != "" && a[0] == b[0] {
      LessTotal(a[1..], b[1..]);
      assert a == [a[0]] + a[1..] && b == [b[0]] + b[1..];
    }
    if a != "" { LessTotal(a[1..], a[1..]); }
  }

  lemma {:induction false} LessTransitive(a: string, b: string, c: string)
    requires Less(a, b) && Less(b, c)
    ensures Less(a, c)
  {
    if a != "" && a[0] == b[0] == c[0] { LessTransitive(a[1..], b[1..], c[1..]); }
  }

  /** Order after a common prefix is the order of what follows it. */
  lemma {:induction false} LessPrefix(p: string, a: string, b: string)
    ensures Less(p + a, p + b) <==> Less(a, b)
  {
    if p == "" {
      assert p + a == a && p + b == b;
    } else {
      assert (p + a)[1..] == p[1..] + a && (p + b)[1..] == p[1..] + b;
      LessPrefix(p[1..], a, b);
    }
  }

  /** The first difference decides, whatever follows it. */
  lemma {:induction false} LessExtend(a: string, b: string, s: string, t: string)
    requires |a| == |b| && Less(a, b)
    ensures Less(a + s, b + t)
  {
    if a[0] == b[0] {
      LessExtend(a[1..], b[1..], s, t);
    }
    assert (a + s)[1..] == a[1..] + s && (b + t)[1..] == b[1..] + t;
  }
}
