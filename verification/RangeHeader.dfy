/**
  The HTTP Range header parser of client/clientutil/range.go.

  `ParseRange` turns the byte-range-set of section 2.1 of RFC 7233 into start/length pairs for a
  content of known size. The module has the parser as a method with the loop of the source, the
  meaning of a header text, and the result that an accepted header yields proper ranges exactly when
  no suffix carries a minus sign.
 */
module RangeHeader {
  import opened Wrappers

  const MIN_INT64: int := -0x8000_0000_0000_0000
  const MAX_INT64: int := 0x7FFF_FFFF_FFFF_FFFF

  type Int64 = n: int | MIN_INT64 <= n <= MAX_INT64

  /** Go's int64 arithmetic wraps around. */
  function Wrap(n: int): Int64 {
    (n - MIN_INT64) % 0x1_0000_0000_0000_0000 + MIN_INT64
  }

  datatype Range = Range(start: Int64, length: Int64)

  datatype Parsed = Ok(ranges: seq<Range>) | Invalid | NoOverlap

  const BYTES := "bytes="

  // ---------------------------------------------------------------------------------------------
  // The text functions the parser relies on
  // ---------------------------------------------------------------------------------------------

  predicate IsSpace(c: char) {
    c == ' ' || c == '\t' || c == '\n' || c == '\r'
  }

  predicate IsDigit(c: char) {
    '0' <= c <= '9'
  }

  predicate AllSpace(s: string) {
    forall i | 0 <= i < |s| :: IsSpace(s[i])
  }

  predicate AllDigits(s: string) {
    forall i | 0 <= i < |s| :: IsDigit(s[i])
  }

  function TrimLeft(s: string): string {
    if s != "" && IsSpace(s[0]) then TrimLeft(s[1..]) else s
  }

  function TrimRight(s: string): string {
    if s != "" && IsSpace(s[|s| - 1]) then TrimRight(s[..|s| - 1]) else s
  }

  /** textproto.TrimString */
  function Trim(s: string): string {
    TrimRight(TrimLeft(s))
  }

  /** strings.Index of a single character: |s| stands for "not found". */
  function IndexOf(s: string, c: char): nat {
    if s == "" || s[0] == c then 0 else 1 + IndexOf(s[1..], c)
  }

  lemma {:induction false} IndexOfFirst(s: string, c: char)
    ensures IndexOf(s, c) <= |s|
    ensures forall i | 0 <= i < IndexOf(s, c) :: s[i] != c
    ensures IndexOf(s, c) < |s| ==> s[IndexOf(s, c)] == c
  {
    if s != "" && s[0] != c {
      IndexOfFirst(s[1..], c);
      assert forall i | 0 < i < IndexOf(s, c) :: s[i] == s[1..][i - 1];
    }
  }

  /** strings.Split at commas */
  function Split(s: string): (parts: seq<string>)
    ensures parts != []
  {
    IndexOfFirst(s, ',');
    var i := IndexOf(s, ',');
    if i == |s| then [s] else [s[..i]] + Split(s[i + 1..])
  }

  function DigitsValue(s: string): nat
    requires AllDigits(s)
  {
    if s == "" then 0 else 10 * DigitsValue(s[..|s| - 1]) + (s[|s| - 1] as int - '0' as int)
  }

  /** strconv.ParseInt in base 10 to 64 bits; None is an error. */
  function ParseInt(s: string): Option<Int64> {
    var negative := s != "" && s[0] == '-';
    var digits := if s != "" && (s[0] == '-' || s[0] == '+') then s[1..] else s;
    if digits == "" || !AllDigits(digits) then None
    else
      var v: int := DigitsValue(digits);
      var n := if negative then -v else v;
      if MIN_INT64 <= n <= MAX_INT64 then Some(n) else None
  }

  // ---------------------------------------------------------------------------------------------
  // The meaning of a header
  // ---------------------------------------------------------------------------------------------

  /** One element of the list: skipped, malformed, past the end of the content, or a range. */
  datatype Reading = Skip | Bad | Past | Keep(range: Range)

  function ReadSuffix(end: string, size: Int64): Reading {
    match ParseInt(end)
    case None => Bad
    case Some(n) =>
      var i := if n > size then size else n;
      var start := Wrap(size - i);
      Keep(Range(start, Wrap(size - start)))
  }

  function ReadFrom(start: string, end: string, size: Int64): Reading {
    match ParseInt(start)
    case None => Bad
    case Some(first) =>
      if first < 0 then Bad
      else if first >= size then Past
      else if end == "" then Keep(Range(first, size - first))
      else
        match ParseInt(end)
        case None => Bad
        case Some(last) =>
          if first > last then Bad
          else Keep(Range(first, (if last >= size then size - 1 else last) - first + 1))
  }

  /** What stands before the first minus sign, trimmed, and what stands after it. */
  function Start(element: string): string {
    var ra := Trim(element);
    IndexOfFirst(ra, '-');
    Trim(ra[..IndexOf(ra, '-')])
  }

  function Last(element: string): string
    requires HasDash(element)
  {
    var ra := Trim(element);
    Trim(ra[IndexOf(ra, '-') + 1..])
  }

  predicate HasDash(element: string) {
    IndexOf(Trim(element), '-') < |Trim(element)|
  }

  function Read(element: string, size: Int64): Reading {
    if Trim(element) == "" then Skip
    else if !HasDash(element) then Bad
    else if Start(element) == "" then ReadSuffix(Last(element), size)
    else ReadFrom(Start(element), Last(element), size)
  }

  function RangeOf(r: Reading): seq<Range> {
    if r.Keep? then [r.range] else []
  }

  /** The ranges that are kept, in order. */
  function Collect(readings: seq<Reading>): seq<Range> {
    if readings == [] then [] else RangeOf(readings[0]) + Collect(readings[1..])
  }

  function Readings(elements: seq<string>, size: Int64): seq<Reading> {
    seq(|elements|, i requires 0 <= i < |elements| => Read(elements[i], size))
  }

  function Ranges(elements: seq<string>, size: Int64): seq<Range> {
    Collect(Readings(elements, size))
  }

  ghost predicate AnyBad(elements: seq<string>, size: Int64) {
    exists i :: 0 <= i < |elements| && Read(elements[i], size).Bad?
  }

  ghost predicate AnyPast(elements: seq<string>, size: Int64) {
    exists i :: 0 <= i < |elements| && Read(elements[i], size).Past?
  }

  /** What ParseRange returns for a header. */
  ghost function Meaning(s: string, size: Int64): Parsed {
    if s == "" then Ok([])
    else if !(BYTES <= s) then Invalid
    else
      MeaningOfList(Split(s[|BYTES|..]), size)
  }

  ghost function MeaningOfList(elements: seq<string>, size: Int64): Parsed {
    if AnyBad(elements, size) then Invalid
    else if Ranges(elements, size) == [] && AnyPast(elements, size) then NoOverlap
    else Ok(Ranges(elements, size))
  }

  lemma Associates<T>(a: seq<T>, b: seq<T>, c: seq<T>)
    ensures a + (b + c) == (a + b) + c
  {
  }

  lemma {:induction false} CollectAppend(readings: seq<Reading>, r: Reading)
    ensures Collect(readings + [r]) == Collect(readings) + RangeOf(r)
  {
    if readings == [] {
      assert readings + [r] == [r];
    } else {
      var first, rest := RangeOf(readings[0]), readings[1..];
      CollectAppend(rest, r);
      assert (readings + [r])[1..] == rest + [r];
      Associates(first, Collect(rest), RangeOf(r));
    }
  }

  lemma AnyAppend(elements: seq<string>, e: string, size: Int64)
    ensures AnyBad(elements + [e], size) <==> AnyBad(elements, size) || Read(e, size).Bad?
    ensures AnyPast(elements + [e], size) <==> AnyPast(elements, size) || Read(e, size).Past?
  {
    var all := elements + [e];
    assert all[|elements|] == e;
    if i :| 0 <= i < |elements| && Read(elements[i], size).Bad? { assert Read(all[i], size).Bad?; }
    if i :| 0 <= i < |elements| && Read(elements[i], size).Past? { assert Read(all[i], size).Past?; }
  }

  /** What one more element adds. */
  lemma TakeOne(elements: seq<string>, n: nat, size: Int64)
    requires n < |elements|
    ensures var r := Read(elements[n], size);
            && Ranges(elements[..n + 1], size) == Ranges(elements[..n], size) + RangeOf(r)
            && (AnyBad(elements[..n + 1], size) <==> AnyBad(elements[..n], size) || r.Bad?)
            && (AnyPast(elements[..n + 1], size) <==> AnyPast(elements[..n], size) || r.Past?)
  {
    assert elements[..n + 1] == elements[..n] + [elements[n]];
    assert Readings(elements[..n + 1], size) == Readings(elements[..n], size) + [Read(elements[n], size)];
    CollectAppend(Readings(elements[..n], size), Read(elements[n], size));
    AnyAppend(elements[..n], elements[n], size);
  }

  /** The loop of ParseRange over the list elements. */
  method ParseList(elements: seq<string>, size: Int64) returns (r: Parsed)
    ensures r == MeaningOfList(elements, size)
  {
    var ranges: seq<Range> := [];
    var noOverlap := false;
    for n := 0 to |elements|
      invariant ranges == Ranges(elements[..n], size)
      invariant !AnyBad(elements[..n], size)
      invariant noOverlap <==> AnyPast(elements[..n], size)
    {
      TakeOne(elements, n, size);
      var reading := Read(elements[n], size);
      match reading {
        case Skip =>
        case Bad =>
          return Invalid;
        case Past =>
          noOverlap := true;
        case Keep(range) =>
          ranges := ranges + [range];
      }
    }
    assert elements[..|elements|] == elements;
    if noOverlap && |ranges| == 0 {
      return NoOverlap;
    }
    r := Ok(ranges);
  }

  method ParseRange(s: string, size: Int64) returns (r: Parsed)
    ensures r == Meaning(s, size)
  {
    if s == "" {
      return Ok([]);
    }
    if !(BYTES <= s) {
      return Invalid;
    }
    r := ParseList(Split(s[|BYTES|..]), size);
  }

  /** MustParseRange; None stands for its panic. */
  method MustParseRange(s: string, size: Int64) returns (r: Option<Range>)
    ensures r.Some? <==> Meaning(s, size).Ok? && |Meaning(s, size).ranges| == 1
    ensures r.Some? ==> Meaning(s, size) == Ok([r.value])
  {
    var parsed := ParseRange(s, size);
    if !parsed.Ok? {
      return None;
    }
    if |parsed.ranges| != 1 {
      return None;
    }
    r := Some(parsed.ranges[0]);
  }

  // ---------------------------------------------------------------------------------------------
  // Accepted headers and proper ranges
  // ---------------------------------------------------------------------------------------------

  /** A range inside the content. */
  predicate Proper(r: Range, size: Int64) {
    0 <= r.start && 0 <= r.length && r.start + r.length <= size
  }

  /** A list element such as "--5": after the first minus sign comes a second one and a number other
      than zero. */
  predicate IsNegativeSuffix(element: string) {
    var ra := Trim(element);
    && ra != "" && ra[0] == '-'
    && var end := Trim(ra[1..]);
       && end != "" && end[0] == '-' && exists i :: 1 <= i < |end| && end[i] != '0'
  }

  lemma {:induction false} DigitsValueZero(s: string)
    requires AllDigits(s)
    ensures DigitsValue(s) == 0 <==> forall i | 0 <= i < |s| :: s[i] == '0'
  {
    if s != "" {
      DigitsValueZero(s[..|s| - 1]);
      assert forall i | 0 <= i < |s| - 1 :: s[i] == s[..|s| - 1][i];
    }
  }

  lemma ParseIntSign(s: string)
    requires ParseInt(s).Some?
    ensures ParseInt(s).value < 0 <==> s[0] == '-' && exists i :: 1 <= i < |s| && s[i] != '0'
  {
    if s[0] == '-' {
      DigitsValueZero(s[1..]);
      assert forall i | 1 <= i < |s| :: s[i] == s[1..][i - 1];
    }
  }

  lemma TrimmedStart(s: string)
    ensures Trim(s) != "" ==> !IsSpace(Trim(s)[0])
  {
    TrimLeftStart(s);
    TrimRightPrefix(TrimLeft(s));
  }

  lemma {:induction false} TrimLeftStart(s: string)
    ensures TrimLeft(s) != "" ==> !IsSpace(TrimLeft(s)[0])
    decreases |s|
  {
    if s != "" && IsSpace(s[0]) {
      TrimLeftStart(s[1..]);
    }
  }

  lemma {:induction false} TrimRightPrefix(s: string)
    ensures TrimRight(s) <= s
    decreases |s|
  {
    if s != "" && IsSpace(s[|s| - 1]) {
      TrimRightPrefix(s[..|s| - 1]);
    }
  }

  lemma {:induction false} TrimToEmpty(s: string)
    requires s != "" && !IsSpace(s[0])
    ensures Trim(s) != ""
    decreases |s|
  {
    if IsSpace(s[|s| - 1]) {
      TrimToEmpty(s[..|s| - 1]);
      assert TrimLeft(s[..|s| - 1]) == s[..|s| - 1];
    }
  }

  lemma WrapBack(size: Int64, i: Int64)
    ensures Wrap(size - Wrap(size - i)) == i
    ensures Wrap(Wrap(size - i) + i) == size
    ensures 0 <= i <= size ==> Wrap(size - i) == size - i
  {
  }

  lemma SuffixIsProper(end: string, size: Int64)
    requires ReadSuffix(end, size).Keep? && 0 <= size
    ensures var r := ReadSuffix(end, size).range;
            && (Proper(r, size) <==> ParseInt(end).value >= 0)
            && Wrap(r.start + r.length) == size
  {
    var n := ParseInt(end).value;
    WrapBack(size, if n > size then size else n);
  }

  lemma FirstIsProper(start: string, end: string, size: Int64)
    requires ReadFrom(start, end, size).Keep? && 0 <= size
    ensures var r := ReadFrom(start, end, size).range; Proper(r, size) && 1 <= r.length
  {
  }

  /** An element is read as a suffix exactly when it begins with a minus sign. */
  lemma SuffixOrFirst(element: string, size: Int64)
    requires Read(element, size).Keep?
    ensures var ra := Trim(element);
            && ra != ""
            && (ra[0] == '-' ==> Read(element, size) == ReadSuffix(Trim(ra[1..]), size))
            && (ra[0] != '-' ==> exists start, end :: Read(element, size) == ReadFrom(start, end, size))
  {
    var ra := Trim(element);
    IndexOfFirst(ra, '-');
    var i := IndexOf(ra, '-');
    TrimmedStart(element);
    if i == 0 {
      assert ra[..0] == "" && Trim("") == "";
    } else {
      TrimToEmpty(ra[..i]);
    }
  }

  /** A kept range is improper exactly for a negative suffix; ranges with a first position are not
      empty, and suffix ranges end at the end of the content. */
  lemma KeptIsProper(element: string, size: Int64)
    requires Read(element, size).Keep? && 0 <= size
    ensures Proper(Read(element, size).range, size) <==> !IsNegativeSuffix(element)
    ensures var ra, r := Trim(element), Read(element, size).range;
            ra != "" && if ra[0] == '-' then Wrap(r.start + r.length) == size else 1 <= r.length
  {
    SuffixOrFirst(element, size);
    var ra := Trim(element);
    if ra[0] == '-' {
      SuffixIsProper(Trim(ra[1..]), size);
      ParseIntSign(Trim(ra[1..]));
    } else {
      var start, end :| Read(element, size) == ReadFrom(start, end, size);
      FirstIsProper(start, end, size);
    }
  }

  lemma {:induction false} CollectedIsKept(readings: seq<Reading>, r: Range)
    ensures r in Collect(readings) <==> Keep(r) in readings
  {
    if readings != [] {
      CollectedIsKept(readings[1..], r);
      assert readings == [readings[0]] + readings[1..];
    }
  }

  lemma RangesOf(elements: seq<string>, size: Int64, r: Range)
    ensures r in Ranges(elements, size) <==> exists e :: e in elements && Read(e, size) == Keep(r)
  {
    var readings := Readings(elements, size);
    CollectedIsKept(readings, r);
    if Keep(r) in readings {
      var i :| 0 <= i < |readings| && readings[i] == Keep(r);
      assert elements[i] in elements && Read(elements[i], size) == Keep(r);
    }
    if e :| e in elements && Read(e, size) == Keep(r) {
      var i :| 0 <= i < |elements| && elements[i] == e;
      assert readings[i] == Keep(r);
    }
  }

  /** For every header text and every size: all ranges of an accepted header lie inside the content
      exactly when no list element is a suffix with a negative number. */
  lemma AcceptedIsProper(s: string, size: Int64)
    requires 0 <= size && BYTES <= s && Meaning(s, size).Ok?
    ensures (forall r | r in Meaning(s, size).ranges :: Proper(r, size))
            <==> (forall e | e in Split(s[|BYTES|..]) :: !IsNegativeSuffix(e))
  {
    var elements := Split(s[|BYTES|..]);
    forall e | e in elements ensures IsNegativeSuffix(e) ==> Read(e, size).Keep? {
      if IsNegativeSuffix(e) {
        assert !Read(e, size).Bad? by { assert !AnyBad(elements, size); }
        NegativeSuffixIsKept(e, size);
      }
    }
    if r :| r in Ranges(elements, size) && !Proper(r, size) {
      RangesOf(elements, size, r);
      var e :| e in elements && Read(e, size) == Keep(r);
      KeptIsProper(e, size);
    }
    if e :| e in elements && IsNegativeSuffix(e) {
      RangesOf(elements, size, Read(e, size).range);
      KeptIsProper(e, size);
    }
  }

  lemma NegativeSuffixIsKept(element: string, size: Int64)
    requires IsNegativeSuffix(element) && !Read(element, size).Bad?
    ensures Read(element, size).Keep?
  {
    var ra := Trim(element);
    assert IndexOf(ra, '-') == 0 && ra[..0] == "" && Trim("") == "";
  }

  lemma DoubleMinusReads()
    ensures Read("--5", 10) == Keep(Range(15, -5))
  {
    assert TrimLeft("--5") == "--5" && TrimRight("--5") == "--5";
    assert "--5"[..0] == "" && "--5"[1..] == "-5";
    assert Trim("") == "" && Trim("-5") == "-5";
    assert "-5"[1..] == "5" && "5"[..0] == "" && DigitsValue("5") == 5;
  }

  lemma DoubleMinusSplits()
    ensures Split("--5") == ["--5"]
  {
    assert "--5"[1..] == "-5" && "-5"[1..] == "5" && "5"[1..] == "";
  }

  /** It does happen: a second minus sign gives a range of negative length. */
  lemma NegativeSuffixExample()
    ensures Meaning("bytes=--5", 10) == Ok([Range(15, -5)])
  {
    assert "bytes=--5"[|BYTES|..] == "--5";
    DoubleMinusSplits();
    DoubleMinusReads();
    assert Readings(["--5"], 10) == [Keep(Range(15, -5))];
  }
}
