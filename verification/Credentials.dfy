/** The credentials file: `key=value` lines under comment lines. Secrets are
    generated on the first boot and read back on every later one. */
module Credentials {
  import opened Prelude
  import opened Text

  datatype Pair = Pair(key: string, value: string)

  // ------------------------------------------------------------ reading a file

  /** The text before and after the first equals sign. */
  function Cut(s: string): Option<(string, string)> {
    if s == "" then None
    else if s[0] == '=' then Some(("", s[1..]))
    else match Cut(s[1..])
      case Some(p) => Some(([s[0]] + p.0, p.1))
      case None => None
  }

  function ParsedLine(line: string): Option<Pair> {
    var t := Trim(line);
    if t == "" || t[0] == '#' then None
    else match Cut(t)
      case Some(p) => Some(Pair(Trim(p.0), Trim(p.1)))
      case None => None
  }

  function Kept(line: string): seq<Pair> {
    match ParsedLine(line)
    case Some(p) => [p]
    case None => []
  }

  function Collected(lines: seq<string>): seq<Pair> {
    if lines == [] then [] else Kept(lines[0]) + Collected(lines[1..])
  }

  function Read(text: string): seq<Pair> {
    Collected(Lines(text))
  }

  lemma CollectedNext(out: seq<Pair>, lines: seq<string>, n: nat)
    requires n < |lines|
    ensures out + Collected(lines[n..]) == (out + Kept(lines[n])) + Collected(lines[n + 1..])
    ensures ParsedLine(lines[n]) == None ==> out + Collected(lines[n..]) == out + Collected(lines[n + 1..])
  {
    assert lines[n..][1..] == lines[n + 1..];
    Regroup(out, Kept(lines[n]), Collected(lines[n + 1..]));
  }

  lemma Regroup(a: seq<Pair>, b: seq<Pair>, c: seq<Pair>)
    ensures (a + b) + c == a + (b + c) && a + [] == a
  {
  }

  method ReadKvFile(text: string) returns (out: seq<Pair>)
    ensures out == Read(text)
  {
    var lines := Lines(text);
    out := [];
    for n := 0 to |lines|
      invariant out + Collected(lines[n..]) == Read(text)
    {
      CollectedNext(out, lines, n);
      var line := Trim(lines[n]);
      if line != "" && line[0] != '#' {
        var cut := Cut(line);
        if cut.Some? { out := out + [Pair(Trim(cut.value.0), Trim(cut.value.1))]; }
      }
    }
    assert out + [] == out;
  }

  // ------------------------------------------------------------ writing a file

  function LineText(p: Pair): string {
    p.key + "=" + p.value
  }

  function LineTexts(pairs: seq<Pair>): seq<string> {
    seq(|pairs|, i requires 0 <= i < |pairs| => LineText(pairs[i]))
  }

  function Printed(lines: seq<string>): string {
    if lines == [] then "" else lines[0] + "\n" + Printed(lines[1..])
  }

  /** The file text: the header's comment lines, then a line per pair. */
  function FileText(header: seq<string>, pairs: seq<Pair>): string {
    Printed(header) + Printed(LineTexts(pairs))
  }

  method WriteKvFile(header: seq<string>, pairs: seq<Pair>) returns (text: string)
    ensures text == FileText(header, pairs)
  {
    text := Printed(header);
    for n := 0 to |pairs|
      invariant text + Printed(LineTexts(pairs)[n..]) == FileText(header, pairs)
    {
      assert LineTexts(pairs)[n..][1..] == LineTexts(pairs)[n + 1..];
      text := text + pairs[n].key + "=" + pairs[n].value + "\n";
    }
    assert text + "" == text;
  }

  // --------------------------------------------------------------- round trip

  /** A key that survives a line: trimmed, no equals sign, not a comment. */
  ghost predicate PlainKey(k: string) {
    Trimmed(k) && Free(k, '=') && Free(k, '\n') && !(k != "" && k[0] == '#')
  }

  /** A pair that survives being written and read back. */
  ghost predicate Lasting(p: Pair) {
    PlainKey(p.key) && Trimmed(p.value) && Free(p.value, '\n')
  }

  lemma {:induction false} CutFree(k: string, v: string)
    requires Free(k, '=')
    ensures Cut(k + "=" + v) == Some((k, v))
  {
    if k == "" {
      assert (k + "=" + v)[1..] == v;
    } else {
      CutFree(k[1..], v);
      assert (k + "=" + v)[1..] == k[1..] + "=" + v;
      assert [k[0]] + k[1..] == k;
    }
  }

  lemma {:induction false} CutShape(s: string)
    ensures Cut(s).Some? ==>
              Free(Cut(s).value.0, '=') && s == Cut(s).value.0 + "=" + Cut(s).value.1
  {
    if s != "" && s[0] != '=' { CutShape(s[1..]); }
  }

  /** Trimming a line whose key starts it leaves the key in place. */
  lemma TrimLine(k: string, v: string)
    requires Trimmed(k)
    ensures Trim(k + "=" + v) == k + "=" + TrimEnd(v)
  {
    var s := k + "=" + v;
    assert TrimStart(s) == s;
    TrimEndAfter(k + "=", v);
  }

  lemma {:induction false} TrimEndAfter(a: string, v: string)
    requires a != "" && !IsSpace(a[|a| - 1])
    ensures TrimEnd(a + v) == a + TrimEnd(v)
  {
    if v == "" {
      assert a + v == a;
    } else if IsSpace(v[|v| - 1]) {
      TrimEndAfter(a, v[..|v| - 1]);
      assert (a + v)[..|a + v| - 1] == a + v[..|v| - 1];
    }
  }

  lemma {:induction false} TrimEnds(v: string)
    ensures Trim(TrimEnd(v)) == Trim(v)
  {
    if v != "" && IsSpace(v[|v| - 1]) {
      TrimEnds(v[..|v| - 1]);
      TrimAppendSpace(v[..|v| - 1], v[|v| - 1]);
      assert v[..|v| - 1] + [v[|v| - 1]] == v;
    }
  }

  /** A written pair is read back with its key as it was and its value trimmed. */
  lemma LineReads(p: Pair)
    requires PlainKey(p.key)
    ensures ParsedLine(LineText(p)) == Some(Pair(p.key, Trim(p.value)))
  {
    TrimLine(p.key, p.value);
    CutFree(p.key, TrimEnd(p.value));
    TrimEnds(p.value);
    TrimFixed(p.key);
  }

  /** Everything that is ever read is a pair that survives the next rewrite. */
  lemma LineIsLasting(line: string)
    requires Free(line, '\n')
    ensures ParsedLine(line).Some? ==> Lasting(ParsedLine(line).value)
  {
    var t := Trim(line);
    TrimShape(line);
    if ParsedLine(line).Some? {
      CutShape(t);
      var k, v := Cut(t).value.0, Cut(t).value.1;
      TrimShape(k);
      TrimShape(v);
      assert t == k + "=" + v;
      KeyStart(k);
      assert forall c | c in k || c in v :: c in t;
    }
  }

  /** Trimming a text that does not start with a space keeps its first letter. */
  lemma KeyStart(k: string)
    requires k != "" ==> !IsSpace(k[0])
    ensures Trim(k) != "" ==> Trim(k)[0] == k[0]
  {
    TrimEndPrefix(k);
  }

  /** Exactly the lasting pairs are read back unchanged. */
  lemma RoundTripExact(p: Pair)
    requires Free(p.key, '\n') && Free(p.value, '\n')
    ensures ParsedLine(LineText(p)) == Some(p) <==> Lasting(p)
  {
    if Lasting(p) {
      LineReads(p);
      TrimFixed(p.value);
    }
    LineIsLasting(LineText(p));
  }

  lemma ParsedStripCr(line: string)
    ensures ParsedLine(StripCr(line)) == ParsedLine(line)
  {
    TrimStripCr(line);
  }

  /** Line endings do not matter to the reader. */
  lemma {:induction false} CollectedLines(parts: seq<string>)
    ensures Collected(LinesOf(parts)) == Collected(parts)
  {
    if |parts| == 1 {
      assert ParsedLine("") == None && parts[1..] == [];
    } else if |parts| > 1 {
      CollectedLines(parts[1..]);
      ParsedStripCr(parts[0]);
      assert LinesOf(parts)[1..] == LinesOf(parts[1..]);
    }
  }

  ghost predicate Comment(line: string) {
    line != "" && line[0] == '#' && Free(line, '\n')
  }

  ghost predicate Header(header: seq<string>) {
    forall i :: 0 <= i < |header| ==> Comment(header[i])
  }

  function TrimmedValues(pairs: seq<Pair>): seq<Pair> {
    seq(|pairs|, i requires 0 <= i < |pairs| => Pair(pairs[i].key, Trim(pairs[i].value)))
  }

  ghost predicate Writable(pairs: seq<Pair>) {
    forall i :: 0 <= i < |pairs| ==> PlainKey(pairs[i].key) && Free(pairs[i].value, '\n')
  }

  lemma CommentReadsAsNothing(line: string)
    requires Comment(line)
    ensures ParsedLine(line) == None
  {
    KeyStart(line);
  }

  /** Reading takes one line off the front of a text. */
  lemma ReadLine(line: string, rest: string)
    requires Free(line, '\n')
    ensures Read(line + "\n" + rest) == Kept(line) + Read(rest)
  {
    SplitAt(line, rest, '\n');
    ParsedStripCr(line);
    var parts := Split(rest, '\n');
    assert Split(line + "\n" + rest, '\n') == [line] + parts;
    assert LinesOf([line] + parts) == [StripCr(line)] + LinesOf(([line] + parts)[1..]);
    assert ([line] + parts)[1..] == parts;
    assert ([StripCr(line)] + LinesOf(parts))[1..] == LinesOf(parts);
  }

  lemma {:induction false} ReadHeader(header: seq<string>, rest: string)
    requires Header(header)
    ensures Read(Printed(header) + rest) == Read(rest)
  {
    if header == [] {
      assert Printed(header) + rest == rest;
    } else {
      ReadHeader(header[1..], rest);
      var more := Printed(header[1..]) + rest;
      assert Printed(header) + rest == header[0] + "\n" + more;
      CommentReadsAsNothing(header[0]);
      ReadLine(header[0], more);
    }
  }

  lemma ReadPair(p: Pair, rest: string)
    requires PlainKey(p.key) && Free(p.value, '\n')
    ensures Read(LineText(p) + "\n" + rest) == [Pair(p.key, Trim(p.value))] + Read(rest)
  {
    LineReads(p);
    ReadLine(LineText(p), rest);
  }

  lemma {:induction false} ReadPairs(pairs: seq<Pair>)
    requires Writable(pairs)
    ensures Read(Printed(LineTexts(pairs))) == TrimmedValues(pairs)
  {
    if pairs != [] {
      ReadPairs(pairs[1..]);
      ReadPair(pairs[0], Printed(LineTexts(pairs[1..])));
      FirstPair(pairs);
    }
  }

  lemma FirstPair(pairs: seq<Pair>)
    requires pairs != []
    ensures Printed(LineTexts(pairs)) == LineText(pairs[0]) + "\n" + Printed(LineTexts(pairs[1..]))
    ensures TrimmedValues(pairs) == [Pair(pairs[0].key, Trim(pairs[0].value))] + TrimmedValues(pairs[1..])
  {
    assert LineTexts(pairs)[1..] == LineTexts(pairs[1..]);
  }

  /** The file reads back as the pairs that were written, values trimmed. */
  lemma FileReads(header: seq<string>, pairs: seq<Pair>)
    requires Header(header) && Writable(pairs)
    ensures Read(FileText(header, pairs)) == TrimmedValues(pairs)
  {
    ReadHeader(header, Printed(LineTexts(pairs)));
    ReadPairs(pairs);
  }

  /** In particular, lasting pairs read back exactly. */
  lemma FileRoundTrip(header: seq<string>, pairs: seq<Pair>)
    requires Header(header) && forall i :: 0 <= i < |pairs| ==> Lasting(pairs[i])
    ensures Read(FileText(header, pairs)) == pairs
  {
    FileReads(header, pairs);
    forall i | 0 <= i < |pairs| ensures Trim(pairs[i].value) == pairs[i].value { TrimFixed(pairs[i].value); }
  }

  lemma {:induction false} CollectedIsLasting(lines: seq<string>)
    requires forall i :: 0 <= i < |lines| ==> Free(lines[i], '\n')
    ensures forall i :: 0 <= i < |Collected(lines)| ==> Lasting(Collected(lines)[i])
  {
    if lines != [] {
      LineIsLasting(lines[0]);
      CollectedIsLasting(lines[1..]);
    }
  }

  /** Whatever a file holds, reading it, writing that and reading again agree. */
  lemma RewriteIsFaithful(header: seq<string>, text: string)
    requires Header(header)
    ensures forall i :: 0 <= i < |Read(text)| ==> Lasting(Read(text)[i])
    ensures Read(FileText(header, Read(text))) == Read(text)
  {
    CollectedLines(Split(text, '\n'));
    SplitPieces(text, '\n');
    assert forall i :: 0 <= i < |Split(text, '\n')| ==> Split(text, '\n')[i] in Split(text, '\n');
    CollectedIsLasting(Split(text, '\n'));
    FileRoundTrip(header, Read(text));
  }
}
