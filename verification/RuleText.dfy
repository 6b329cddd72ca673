/** Numbers and rule texts read back: what the printers write, the parsers take
    for the same thing. */
module RuleText {
  import opened Prelude
  import opened Text
  import opened DateText
  import opened StatusRanges
  import SettingPatch
  import FeedbackBatch

  // ------------------------------------------------------------------ numbers

  lemma {:induction false} ValuePush(s: string, c: char)
    requires AllDigits(s) && IsDigit(c)
    ensures AllDigits(s + [c]) && Value(s + [c]) == 10 * Value(s) + DigitValue(c)
  {
    assert (s + [c])[..|s|] == s;
  }

  /** A number is printed in digits, without a leading zero, and read back. */
  lemma {:induction false} DecimalReads(n: nat)
    ensures Decimal(n) != "" && AllDigits(Decimal(n)) && Value(Decimal(n)) == n
    ensures n > 0 ==> Decimal(n)[0] != '0'
  {
    if n >= 10 {
      DecimalReads(n / 10);
      ValuePush(Decimal(n / 10), Digit(n % 10));
    } else {
      ValuePush("", Digit(n));
      assert "" + [Digit(n)] == [Digit(n)];
    }
  }

  /** The times a refresh writes are read back, a minus sign before the digits of
      a negative one. */
  lemma IntTextReads(n: int)
    ensures var text := SettingPatch.IntText(n);
            var digits := if n < 0 then text[1..] else text;
            && (n < 0 ==> text[0] == '-')
            && digits != "" && AllDigits(digits) && Value(digits) == (if n < 0 then -n else n)
  {
    if n >= 0 { DecimalReads(n); } else { DecimalReads(-n); }
  }

  lemma DigitsTrimmed(s: string)
    requires AllDigits(s)
    ensures Trim(s) == s && WithoutSpaces(s) == s && DashAt(s) == |s|
  {
    TrimFixed(s);
    NoSpaces(s);
  }

  lemma {:induction false} NoSpaces(s: string)
    requires Free(s, ' ')
    ensures WithoutSpaces(s) == s
  {
    if s != "" { NoSpaces(s[1..]); }
  }

  /** A channel id is a number of the `u64` range written in digits. */
  lemma NumericIdReads(n: nat)
    ensures FeedbackBatch.NumericId(Decimal(n)) == if n <= U64_MAX then Some(n) else None
  {
    DecimalReads(n);
    DigitsTrimmed(Decimal(n));
  }

  // -------------------------------------------------------------- single rules

  lemma StatusReads(n: nat)
    ensures HttpStatus(Decimal(n)) == if 100 <= n <= 599 then Some(n) else None
    ensures HttpStatus("+" + Decimal(n)) == HttpStatus(Decimal(n))
  {
    DecimalReads(n);
    assert ("+" + Decimal(n))[1..] == Decimal(n);
  }

  /** A code alone is a rule exactly when it is from 100 to 599. */
  lemma CodeReads(n: nat)
    ensures Token(Decimal(n)) == if 100 <= n <= 599 then Some(Range(n, n)) else None
  {
    DecimalReads(n);
    DigitsTrimmed(Decimal(n));
    StatusReads(n);
  }

  lemma DashBetween(s: string, t: string)
    requires AllDigits(s)
    ensures DashAt(s + "-" + t) == |s|
  {
    var u := s + "-" + t;
    assert u[|s|] == '-' && forall j :: 0 <= j < |s| ==> u[j] == s[j];
  }

  lemma DashedShape(a: string, b: string)
    requires AllDigits(a) && AllDigits(b) && a != "" && b != ""
    ensures WithoutSpaces(Trim(a + "-" + b)) == a + "-" + b && Trimmed(a + "-" + b)
  {
    TrimFixed(a + "-" + b);
    NoSpaces(a + "-" + b);
  }

  lemma DashedToken(a: string, b: string)
    requires AllDigits(a) && AllDigits(b) && a != "" && b != ""
    ensures Token(a + "-" + b)
         == match (HttpStatus(a), HttpStatus(b))
            case (Some(start), Some(end)) => if start > end then None else Some(Range(start, end))
            case _ => None
  {
    DashedShape(a, b);
    DashBetween(a, b);
    var token := a + "-" + b;
    assert token[..|a|] == a && token[|a| + 1..] == b;
  }

  /** Two codes around a dash are a rule exactly when they are in order and both
      from 100 to 599. */
  lemma RangeReads(a: nat, b: nat)
    ensures Token(Decimal(a) + "-" + Decimal(b))
         == if 100 <= a <= b <= 599 then Some(Range(a, b)) else None
  {
    DecimalReads(a);
    DecimalReads(b);
    DashedToken(Decimal(a), Decimal(b));
    StatusReads(a);
    StatusReads(b);
  }

  // ---------------------------------------------------------------- rule texts

  function Printed(r: Range): string
    requires r.start >= 0 && r.end >= 0
  {
    if r.start == r.end then Decimal(r.start) else Decimal(r.start) + "-" + Decimal(r.end)
  }

  ghost predicate AllProper(rs: seq<Range>) {
    forall i :: 0 <= i < |rs| ==> Proper(rs[i])
  }

  function PrintedAll(rs: seq<Range>): (out: seq<string>)
    requires AllProper(rs)
    ensures |out| == |rs| && forall i :: 0 <= i < |rs| ==> out[i] == Printed(rs[i])
  {
    seq(|rs|, i requires 0 <= i < |rs| => Printed(rs[i]))
  }

  lemma PrintedReads(r: Range)
    requires Proper(r)
    ensures Token(Printed(r)) == Some(r)
  {
    if r.start == r.end { CodeReads(r.start); } else { RangeReads(r.start, r.end); }
  }

  /** Printed rules hold digits and dashes only. */
  lemma PrintedShape(r: Range)
    requires Proper(r)
    ensures Printed(r) != "" && Trimmed(Printed(r))
    ensures forall c | c in Printed(r) :: IsDigit(c) || c == '-'
  {
    DecimalReads(r.start);
    DecimalReads(r.end);
    if r.start == r.end { DigitsShape(Decimal(r.start)); } else { DashedChars(Decimal(r.start), Decimal(r.end)); }
  }

  lemma DigitsShape(s: string)
    requires AllDigits(s)
    ensures Trimmed(s) && forall c | c in s :: IsDigit(c)
  {
    TrimFixed(s);
  }

  lemma DashedChars(a: string, b: string)
    requires AllDigits(a) && AllDigits(b) && a != "" && b != ""
    ensures a + "-" + b != "" && Trimmed(a + "-" + b)
    ensures forall c | c in a + "-" + b :: IsDigit(c) || c == '-'
  {
    DashedShape(a, b);
  }

  lemma {:induction false} JoinChars(parts: seq<string>, c: char)
    requires c in Join(parts, ',')
    ensures c == ',' || exists p :: p in parts && c in p
  {
    if |parts| > 1 {
      if c in Join(parts[1..], ',') { JoinChars(parts[1..], c); }
    }
  }

  lemma {:induction false} JoinEnds(parts: seq<string>)
    requires parts != [] && forall p | p in parts :: p != "" && Trimmed(p)
    ensures Join(parts, ',') != "" && Trimmed(Join(parts, ','))
  {
    assert parts[0] in parts;
    if |parts| > 1 {
      assert forall p | p in parts[1..] :: p in parts;
      JoinEnds(parts[1..]);
    }
  }

  lemma {:induction false} PlainStays(s: string)
    requires Free(s, '\U{FF0C}')
    ensures PlainCommas(s) == s
  {
    if s != "" { PlainStays(s[1..]); }
  }

  lemma PrintedSegments(rs: seq<Range>)
    requires AllProper(rs)
    ensures Segments(Join(PrintedAll(rs), ',')) == PrintedAll(rs)
  {
    var parts := PrintedAll(rs);
    var text := Join(parts, ',');
    forall p | p in parts ensures Fragment(p, ',') && forall c | c in p :: IsDigit(c) || c == '-' {
      var i :| 0 <= i < |parts| && parts[i] == p;
      PrintedShape(rs[i]);
    }
    forall c | c in text ensures c != '\U{FF0C}' { JoinChars(parts, c); }
    if parts != [] { JoinEnds(parts); }
    TrimFixed(text);
    PlainStays(text);
    FragmentsJoin(parts, ',');
  }

  /** A printed list of ranges is a valid rule text that names exactly the codes of
      the ranges. */
  lemma PrintedRulesMean(rs: seq<Range>, code: int)
    requires AllProper(rs)
    ensures ValidRules(Join(PrintedAll(rs), ','))
    ensures Names(Join(PrintedAll(rs), ','), code) <==> Covers(rs, code)
  {
    PrintedSegments(rs);
    forall i | 0 <= i < |rs| ensures Token(PrintedAll(rs)[i]) == Some(rs[i]) { PrintedReads(rs[i]); }
    if Covers(rs, code) {
      var i :| 0 <= i < |rs| && StatusRanges.Contains(rs[i], code);
      assert Token(PrintedAll(rs)[i]).value == rs[i];
    }
  }

  /** The round trip: parsing the printed form of ranges in normal form gives the
      same ranges. */
  lemma PrintedParses(rs: seq<Range>, parsed: Parsed)
    requires Canonical(rs) && Parses(Join(PrintedAll(rs), ','), parsed)
    ensures parsed == Ok(rs)
  {
    PrintedRulesMean(rs, 0);
    forall code ensures Covers(parsed.ranges, code) <==> Covers(rs, code) { PrintedRulesMean(rs, code); }
    CanonicalUnique(parsed.ranges, rs);
  }

  /** The full-width comma separates as the plain one does, wherever it stands. */
  lemma {:induction false} WideCommasSplit(s: string)
    ensures |PlainCommas(s)| == |s|
    ensures forall i :: 0 <= i < |s| ==> PlainCommas(s)[i] == if s[i] == '\U{FF0C}' then ',' else s[i]
  {
    if s != "" { WideCommasSplit(s[1..]); }
  }
}
