/** The status-code rules of the automatic-disable policy: parsing a rule text
    into ranges and merging them into a normal form. */
module StatusRanges {
  import opened Prelude
  import opened Text

  datatype Range = Range(start: int, end: int)
  datatype Parsed = Ok(ranges: seq<Range>) | Invalid(segments: seq<string>)

  const U16_MAX := 0xFFFF

  function SatSucc16(n: int): int {
    if n >= U16_MAX then U16_MAX else n + 1
  }

  // -------------------------------------------------------------- single rules

  predicate AllDigits(s: string) {
    forall i :: 0 <= i < |s| ==> IsDigit(s[i])
  }

  function Value(s: string): int
    requires AllDigits(s)
  {
    if s == "" then 0 else 10 * Value(s[..|s| - 1]) + DigitValue(s[|s| - 1])
  }

  /** `str::parse::<u16>` followed by the 100..=599 check; a leading plus sign is
      accepted. */
  function HttpStatus(token: string): Option<int> {
    var digits := if token != "" && token[0] == '+' then token[1..] else token;
    if digits == "" || !AllDigits(digits) || Value(digits) > U16_MAX then None
    else if 100 <= Value(digits) <= 599 then Some(Value(digits))
    else None
  }

  function WithoutSpaces(s: string): string {
    if s == "" then "" else (if s[0] == ' ' then "" else [s[0]]) + WithoutSpaces(s[1..])
  }

  function DashAt(s: string): (i: int)
    ensures 0 <= i <= |s|
    ensures forall j :: 0 <= j < i ==> s[j] != '-'
    ensures i < |s| ==> s[i] == '-'
  {
    if s == "" || s[0] == '-' then 0 else 1 + DashAt(s[1..])
  }

  /** One rule: a code, or two codes around the first dash. */
  function Token(text: string): Option<Range> {
    var token := WithoutSpaces(Trim(text));
    var dash := DashAt(token);
    if token == "" then None
    else if dash < |token| then
      match (HttpStatus(token[..dash]), HttpStatus(token[dash + 1..]))
      case (Some(start), Some(end)) => if start > end then None else Some(Range(start, end))
      case _ => None
    else
      match HttpStatus(token)
      case Some(code) => Some(Range(code, code))
      case None => None
  }

  /** Full-width commas count as commas. */
  function PlainCommas(s: string): string {
    if s == "" then "" else [if s[0] == '\U{FF0C}' then ',' else s[0]] + PlainCommas(s[1..])
  }

  function Segments(input: string): seq<string> {
    Fragments(PlainCommas(Trim(input)), ',')
  }

  // ------------------------------------------------------------------- meaning

  predicate Contains(r: Range, code: int) {
    r.start <= code <= r.end
  }

  ghost predicate Covers(rs: seq<Range>, code: int) {
    exists i :: 0 <= i < |rs| && Contains(rs[i], code)
  }

  /** What a rule text means: some rule of it names the code. */
  ghost predicate Names(input: string, code: int) {
    exists i :: 0 <= i < |Segments(input)| && Token(Segments(input)[i]).Some?
                && Contains(Token(Segments(input)[i]).value, code)
  }

  ghost predicate ValidRules(input: string) {
    forall i :: 0 <= i < |Segments(input)| ==> Token(Segments(input)[i]).Some?
  }

  ghost predicate Proper(r: Range) {
    100 <= r.start <= r.end <= 599
  }

  /** Sorted, inside 100..599, with at least one missing code between ranges. */
  ghost predicate Canonical(rs: seq<Range>) {
    && (forall i :: 0 <= i < |rs| ==> Proper(rs[i]))
    && (forall i, j :: 0 <= i < j < |rs| ==> rs[i].end + 1 < rs[j].start)
  }

  // ------------------------------------------------------------------- sorting

  predicate KeyLeq(a: Range, b: Range) {
    a.start < b.start || (a.start == b.start && a.end <= b.end)
  }

  function InsertSorted(sorted: seq<Range>, r: Range): seq<Range> {
    if sorted == [] || !KeyLeq(sorted[0], r) then [r] + sorted
    else [sorted[0]] + InsertSorted(sorted[1..], r)
  }

  /** A stable sort by start, then end. */
  function Sorted(rs: seq<Range>): seq<Range> {
    if rs == [] then [] else InsertSorted(Sorted(rs[..|rs| - 1]), rs[|rs| - 1])
  }

  ghost predicate ByStart(rs: seq<Range>) {
    forall i, j :: 0 <= i < j < |rs| ==> rs[i].start <= rs[j].start
  }

  lemma {:induction false} InsertKeeps(sorted: seq<Range>, r: Range)
    requires ByStart(sorted)
    ensures ByStart(InsertSorted(sorted, r))
    ensures forall x :: x in InsertSorted(sorted, r) <==> x == r || x in sorted
  {
    if sorted != [] && KeyLeq(sorted[0], r) {
      InsertKeeps(sorted[1..], r);
      var rest := InsertSorted(sorted[1..], r);
      assert forall x | x in rest :: sorted[0].start <= x.start;
    }
  }

  lemma {:induction false} SortedKeeps(rs: seq<Range>)
    ensures ByStart(Sorted(rs))
    ensures forall x :: x in Sorted(rs) <==> x in rs
  {
    if rs != [] {
      var front, last := rs[..|rs| - 1], rs[|rs| - 1];
      SortedKeeps(front);
      InsertKeeps(Sorted(front), last);
      assert rs == front + [last];
    }
  }

  lemma SameElementsCover(a: seq<Range>, b: seq<Range>, code: int)
    requires forall x :: x in a <==> x in b
    ensures Covers(a, code) <==> Covers(b, code)
  {
    if Covers(a, code) {
      var i :| 0 <= i < |a| && Contains(a[i], code);
      assert a[i] in b;
    }
    if Covers(b, code) {
      var i :| 0 <= i < |b| && Contains(b[i], code);
      assert b[i] in a;
    }
  }

  // ---------------------------------------------------------------- the parser

  /** One turn of the merge loop: grow the last range or start a new one. */
  lemma MergeStep(merged: seq<Range>, r: Range, next: seq<Range>)
    requires Canonical(merged) && Proper(r) && merged != []
    requires merged[|merged| - 1].start <= r.start
    requires var last := merged[|merged| - 1];
             next == if r.start <= last.end + 1
                     then merged[|merged| - 1 := Range(last.start, if last.end >= r.end then last.end else r.end)]
                     else merged + [r]
    ensures Canonical(next)
    ensures forall code :: Covers(next, code) <==> Covers(merged, code) || Contains(r, code)
  {
    var k := |merged| - 1;
    forall code ensures Covers(next, code) <==> Covers(merged, code) || Contains(r, code) {
      if Covers(merged, code) {
        var i :| 0 <= i < |merged| && Contains(merged[i], code);
        assert Contains(next[i], code);
      }
      if Contains(r, code) {
        assert Contains(next[|next| - 1], code);
      }
      if Covers(next, code) {
        var i :| 0 <= i < |next| && Contains(next[i], code);
        if i < |merged| && !Contains(r, code) { assert Contains(merged[i], code); }
      }
    }
  }

  /** Overlapping and adjacent ranges become one, the last one edited in place. */
  method Merge(ranges: seq<Range>) returns (merged: seq<Range>)
    requires ByStart(ranges) && forall i :: 0 <= i < |ranges| ==> Proper(ranges[i])
    ensures Canonical(merged)
    ensures forall code :: Covers(merged, code) <==> Covers(ranges, code)
  {
    merged := [];
    for n := 0 to |ranges|
      invariant Canonical(merged)
      invariant n > 0 ==> merged != [] && merged[|merged| - 1].start <= ranges[n - 1].start
      invariant n == 0 ==> merged == []
      invariant forall code :: Covers(merged, code) <==> Covers(ranges[..n], code)
    {
      var r := ranges[n];
      ghost var before := merged;
      if merged == [] {
        merged := [r];
        assert forall code :: Covers(merged, code) <==> Contains(merged[0], code);
      } else {
        var k := |merged| - 1;
        var last := merged[k];
        if r.start <= SatSucc16(last.end) {
          merged := merged[k := Range(last.start, if last.end >= r.end then last.end else r.end)];
        } else {
          merged := merged + [r];
        }
        MergeStep(before, r, merged);
      }
      CoversAppend(ranges[..n], r);
      assert ranges[..n + 1] == ranges[..n] + [r];
    }
    assert ranges[..|ranges|] == ranges;
  }

  lemma CoversAppend(rs: seq<Range>, r: Range)
    ensures forall code :: Covers(rs + [r], code) <==> Covers(rs, code) || Contains(r, code)
  {
    forall code ensures Covers(rs + [r], code) <==> Covers(rs, code) || Contains(r, code) {
      if Covers(rs, code) {
        var i :| 0 <= i < |rs| && Contains(rs[i], code);
        assert Contains((rs + [r])[i], code);
      }
      if Contains(r, code) { assert Contains((rs + [r])[|rs|], code); }
    }
  }

  lemma TokenProper(text: string)
    ensures Token(text).Some? ==> Proper(Token(text).value)
  {
  }

  ghost predicate TokensOf(segments: seq<string>, ranges: seq<Range>) {
    |ranges| == |segments| && forall i :: 0 <= i < |ranges| ==> Some(ranges[i]) == Token(segments[i])
  }

  ghost predicate AllTokens(segments: seq<string>) {
    forall i :: 0 <= i < |segments| ==> Token(segments[i]).Some?
  }

  /** What the loop knows after some segments. */
  ghost predicate Progress(segments: seq<string>, ranges: seq<Range>, invalid: seq<string>) {
    && (forall s | s in invalid :: Token(s).None?)
    && (invalid == [] <==> AllTokens(segments))
    && (invalid == [] ==> TokensOf(segments, ranges))
  }

  lemma TokenFound(front: seq<string>, last: string, ranges: seq<Range>, invalid: seq<string>, r: Range)
    requires Progress(front, ranges, invalid) && Token(last) == Some(r)
    ensures Progress(front + [last], ranges + [r], invalid)
  {
    var all := front + [last];
    assert all[|front|] == last;
    assert forall i :: 0 <= i < |front| ==> all[i] == front[i];
  }

  lemma TokenMissing(front: seq<string>, last: string, ranges: seq<Range>, invalid: seq<string>)
    requires Progress(front, ranges, invalid) && Token(last).None?
    ensures Progress(front + [last], ranges, invalid + [last])
  {
    assert (front + [last])[|front|] == last;
  }

  lemma ProgressNext(segments: seq<string>, n: nat, ranges: seq<Range>, invalid: seq<string>)
    requires n < |segments| && Progress(segments[..n], ranges, invalid)
    ensures match Token(segments[n])
            case Some(r) => Progress(segments[..n + 1], ranges + [r], invalid)
            case None => Progress(segments[..n + 1], ranges, invalid + [segments[n]])
  {
    assert segments[..n + 1] == segments[..n] + [segments[n]];
    match Token(segments[n])
    case Some(r) => TokenFound(segments[..n], segments[n], ranges, invalid, r);
    case None => TokenMissing(segments[..n], segments[n], ranges, invalid);
  }

  method ParseSegments(segments: seq<string>) returns (ranges: seq<Range>, invalid: seq<string>)
    ensures Progress(segments, ranges, invalid)
  {
    ranges, invalid := [], [];
    for n := 0 to |segments|
      invariant Progress(segments[..n], ranges, invalid)
    {
      ProgressNext(segments, n, ranges, invalid);
      var token := Token(segments[n]);
      if token.Some? {
        ranges := ranges + [token.value];
      } else {
        invalid := invalid + [segments[n]];
      }
    }
    assert segments[..|segments|] == segments;
  }

  lemma NamedIsCovered(input: string, ranges: seq<Range>, code: int)
    requires TokensOf(Segments(input), ranges)
    ensures Covers(ranges, code) <==> Names(input, code)
  {
    if Covers(ranges, code) {
      var i :| 0 <= i < |ranges| && Contains(ranges[i], code);
      assert Token(Segments(input)[i]) == Some(ranges[i]);
    }
    if Names(input, code) {
      var i :| 0 <= i < |Segments(input)| && Token(Segments(input)[i]).Some?
               && Contains(Token(Segments(input)[i]).value, code);
      assert Contains(ranges[i], code);
    }
  }

  lemma SortedTokens(input: string, ranges: seq<Range>)
    requires TokensOf(Segments(input), ranges)
    ensures ByStart(Sorted(ranges))
    ensures forall i :: 0 <= i < |Sorted(ranges)| ==> Proper(Sorted(ranges)[i])
    ensures forall code :: Covers(Sorted(ranges), code) <==> Names(input, code)
  {
    SortedKeeps(ranges);
    forall i | 0 <= i < |Sorted(ranges)| ensures Proper(Sorted(ranges)[i]) {
      assert Sorted(ranges)[i] in ranges;
      var k :| 0 <= k < |ranges| && ranges[k] == Sorted(ranges)[i];
      TokenProper(Segments(input)[k]);
    }
    forall code ensures Covers(Sorted(ranges), code) <==> Names(input, code) {
      SameElementsCover(ranges, Sorted(ranges), code);
      NamedIsCovered(input, ranges, code);
    }
  }

  /** What parsing a rule text gives: it is accepted exactly when each of its rules
      is, and the ranges then cover exactly the codes the rules name, in normal
      form. */
  ghost predicate Parses(input: string, parsed: Parsed) {
    && (parsed.Ok? <==> ValidRules(input))
    && (parsed.Ok? ==> Canonical(parsed.ranges))
    && (parsed.Ok? ==> forall code :: Covers(parsed.ranges, code) <==> Names(input, code))
    && (parsed.Invalid? ==> parsed.segments != [] && forall s | s in parsed.segments :: Token(s).None?)
  }

  method ParseStatusCodeRanges(input: string) returns (parsed: Parsed)
    ensures Parses(input, parsed)
  {
    var ranges, invalid := ParseSegments(Segments(input));
    if invalid != [] { return Invalid(invalid); }
    SortedTokens(input, ranges);
    var merged := Merge(Sorted(ranges));
    parsed := Ok(merged);
  }

  // --------------------------------------------------------------- normal form

  lemma FirstStart(a: seq<Range>, b: seq<Range>)
    requires Canonical(a) && Canonical(b) && a != [] && b != []
    requires forall code :: Covers(a, code) <==> Covers(b, code)
    ensures a[0].start == b[0].start && a[0].end == b[0].end
  {
    NonEmptyCovers(a);
    NonEmptyCovers(b);
    GapAfterFirst(a);
    GapAfterFirst(b);
    assert !Contains(b[0], a[0].end + 1) && !Contains(a[0], b[0].end + 1);
  }

  lemma NonEmptyCovers(a: seq<Range>)
    requires Canonical(a)
    ensures a != [] ==> Covers(a, a[0].start) && forall code :: code < a[0].start ==> !Covers(a, code)
  {
    assert a != [] ==> Contains(a[0], a[0].start);
  }

  lemma GapAfterFirst(a: seq<Range>)
    requires Canonical(a) && a != []
    ensures !Covers(a, a[0].end + 1)
  {
  }

  lemma TailCovers(a: seq<Range>, code: int)
    requires Canonical(a) && a != []
    ensures Covers(a[1..], code) <==> Covers(a, code) && code > a[0].end
  {
    if Covers(a, code) && code > a[0].end {
      var i :| 0 <= i < |a| && Contains(a[i], code);
      assert Contains(a[1..][i - 1], code);
    }
    if Covers(a[1..], code) {
      var i :| 0 <= i < |a| - 1 && Contains(a[1..][i], code);
      assert Contains(a[i + 1], code);
    }
  }

  /** The normal form is unique: lists that cover the same codes are equal. */
  lemma {:induction false} CanonicalUnique(a: seq<Range>, b: seq<Range>)
    requires Canonical(a) && Canonical(b)
    requires forall code :: Covers(a, code) <==> Covers(b, code)
    ensures a == b
    decreases |a|
  {
    NonEmptyCovers(a);
    NonEmptyCovers(b);
    if a != [] {
      FirstStart(a, b);
      forall code ensures Covers(a[1..], code) <==> Covers(b[1..], code) {
        TailCovers(a, code);
        TailCovers(b, code);
      }
      CanonicalUnique(a[1..], b[1..]);
      assert a == [a[0]] + a[1..] && b == [b[0]] + b[1..];
    }
  }

  /** Two valid rule texts parse to one list if and only if they name the same
      codes. */
  lemma SameMeaningSameList(a: string, b: string, ofA: Parsed, ofB: Parsed)
    requires Parses(a, ofA) && Parses(b, ofB) && ValidRules(a) && ValidRules(b)
    ensures ofA == ofB <==> forall code :: Names(a, code) <==> Names(b, code)
  {
    if forall code :: Names(a, code) <==> Names(b, code) {
      assert forall code :: Covers(ofA.ranges, code) <==> Covers(ofB.ranges, code);
      CanonicalUnique(ofA.ranges, ofB.ranges);
    }
  }
}
