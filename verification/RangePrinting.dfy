/**
  Headers as section 2.1 of RFC 7233 prints them, and what they select.

  A byte-range-set is a list of first-last, first- and -suffix specs with decimal positions, in which
  blanks may surround every position and list elements may be empty. The main result is that the
  parser answers as the RFC says if and only if every position it has to read fits 64 bits and the
  list is not one whose only specs inside the content are suffixes of length zero; in the first case
  it rejects the header, in the second it accepts an unsatisfiable one.
 */
module RangePrinting {
  import opened RangeHeader
  import opened Wrappers

  // ---------------------------------------------------------------------------------------------
  // The alphabet of the grammar
  // ---------------------------------------------------------------------------------------------

  /** Optional white space, section 3.2.3 of RFC 7230. */
  predicate IsBlank(s: string) {
    forall i | 0 <= i < |s| :: s[i] == ' ' || s[i] == '\t'
  }

  predicate IsDecimal(s: string) {
    forall i | 0 <= i < |s| :: '0' <= s[i] <= '9'
  }

  function Digit(c: char): nat {
    if '0' <= c <= '9' then (c - '0') as nat else 0
  }

  function Pow10(n: nat): nat {
    if n == 0 then 1 else 10 * Pow10(n - 1)
  }

  /** The number that decimal digits stand for. */
  function Number(s: string): nat {
    if s == "" then 0 else Digit(s[0]) * Pow10(|s| - 1) + Number(s[1..])
  }

  lemma DecimalIsDigits(s: string)
    ensures IsDecimal(s) <==> AllDigits(s)
  {
  }

  lemma Shift(d: nat, n: nat)
    ensures d * Pow10(n + 1) == 10 * (d * Pow10(n))
  {
  }

  lemma {:induction false} NumberAppend(s: string, c: char)
    ensures Number(s + [c]) == 10 * Number(s) + Digit(c)
  {
    if s == "" {
      assert s + [c] == [c] && [c][1..] == "" && Pow10(0) == 1;
    } else {
      NumberAppend(s[1..], c);
      assert (s + [c])[1..] == s[1..] + [c];
      Shift(Digit(s[0]), |s| - 1);
    }
  }

  /** The parser's value of a digit string is the number it stands for. */
  lemma {:induction false} ValueIsNumber(s: string)
    requires AllDigits(s)
    ensures DigitsValue(s) == Number(s)
  {
    if s != "" {
      var front := s[..|s| - 1];
      ValueIsNumber(front);
      NumberAppend(front, s[|s| - 1]);
      assert s == front + [s[|s| - 1]];
    }
  }

  /** A list element: blanks only, or a spec with blanks around its parts. The digit strings are any
      decimal notation of the positions; an empty first is a suffix spec, an empty last is open. */
  datatype Element =
    | Empty(blanks: string)
    | Spec(before: string, first: string, afterFirst: string, beforeLast: string, last: string, after: string)
  {
    function Text(): string {
      match this
      case Empty(blanks) => blanks
      case Spec(b, first, af, bl, last, a) => b + first + af + "-" + bl + last + a
    }

    /** Blanks, a byte-range-spec or a suffix-byte-range-spec. The RFC does not bound positions. */
    ghost predicate Valid() {
      match this
      case Empty(blanks) => IsBlank(blanks)
      case Spec(b, first, af, bl, last, a) =>
        && IsBlank(b) && IsBlank(af) && IsBlank(bl) && IsBlank(a)
        && IsDecimal(first) && IsDecimal(last) && (first != "" || last != "")
        && (first != "" && last != "" ==> Number(first) <= Number(last))
    }

    /** Section 2.1 of RFC 7233: byte b of a content of this size is selected. */
    ghost predicate Selects(size: int, b: int)
      requires Valid()
    {
      && Spec? && 0 <= b < size
      && (if first == "" then size - Number(last) <= b
          else Number(first) <= b && (last != "" ==> b <= Number(last)))
    }

    /** A spec that names a first position at or past the end selects nothing. */
    ghost predicate StartsPast(size: int)
      requires Valid()
    {
      Spec? && first != "" && Number(first) >= size
    }

    /** A suffix spec of length zero. */
    ghost predicate ZeroSuffix()
      requires Valid()
    {
      Spec? && first == "" && Number(last) == 0
    }

    /** Section 2.1 of RFC 7233: the spec makes its byte-range-set satisfiable, having a first position
        below the size or a non-zero suffix length. */
    ghost predicate Satisfies(size: int)
      requires Valid()
    {
      Spec? && !StartsPast(size) && !ZeroSuffix()
    }

    /** The positions that the parser reads fit 64 bits; it does not read the last position of a spec
        that starts at or past the end. */
    ghost predicate Fits(size: int)
      requires Valid()
    {
      Spec? ==>
        if first == "" then Number(last) <= 0x7FFF_FFFF_FFFF_FFFF
        else Number(first) <= 0x7FFF_FFFF_FFFF_FFFF && (Number(first) < size ==> Number(last) <= 0x7FFF_FFFF_FFFF_FFFF)
    }
  }

  /** What the parser makes of the parts of a valid element. */
  lemma ValidMeans(e: Element)
    requires e.Valid()
    ensures e.Empty? ==> AllSpace(e.blanks)
    ensures e.Spec? ==>
              Readable(e) && DigitsValue(e.first) == Number(e.first) && DigitsValue(e.last) == Number(e.last)
  {
    if e.Spec? {
      DecimalIsDigits(e.first);
      DecimalIsDigits(e.last);
      ValueIsNumber(e.first);
      ValueIsNumber(e.last);
    }
  }

  ghost predicate AllValid(elements: seq<Element>) {
    forall i | 0 <= i < |elements| :: elements[i].Valid()
  }

  function Join(elements: seq<Element>): string
    requires elements != []
  {
    if |elements| == 1 then elements[0].Text() else elements[0].Text() + "," + Join(elements[1..])
  }

  function Texts(elements: seq<Element>): seq<string> {
    seq(|elements|, i requires 0 <= i < |elements| => elements[i].Text())
  }

  function Header(elements: seq<Element>): string
    requires elements != []
  {
    BYTES + Join(elements)
  }

  // ---------------------------------------------------------------------------------------------
  // The text functions on printed text
  // ---------------------------------------------------------------------------------------------

  lemma {:induction false} IndexOfAt(a: string, c: char, b: string)
    requires forall i | 0 <= i < |a| :: a[i] != c
    ensures IndexOf(a + [c] + b, c) == |a|
  {
    if a != "" {
      IndexOfAt(a[1..], c, b);
      assert (a + [c] + b)[1..] == a[1..] + [c] + b;
    }
  }

  lemma {:induction false} IndexOfNone(a: string, c: char)
    requires forall i | 0 <= i < |a| :: a[i] != c
    ensures IndexOf(a, c) == |a|
  {
    if a != "" {
      IndexOfNone(a[1..], c);
    }
  }

  lemma {:induction false} TrimLeftBlanks(blanks: string, core: string)
    requires AllSpace(blanks) && (core != "" ==> !IsSpace(core[0]))
    ensures TrimLeft(blanks + core) == core
  {
    if blanks != "" {
      TrimLeftBlanks(blanks[1..], core);
      assert (blanks + core)[1..] == blanks[1..] + core;
    } else {
      assert blanks + core == core;
    }
  }

  lemma {:induction false} TrimRightBlanks(core: string, blanks: string)
    requires AllSpace(blanks) && (core != "" ==> !IsSpace(core[|core| - 1]))
    ensures TrimRight(core + blanks) == core
  {
    if blanks != "" {
      TrimRightBlanks(core, blanks[..|blanks| - 1]);
      assert (core + blanks)[..|core + blanks| - 1] == core + blanks[..|blanks| - 1];
    } else {
      assert core + blanks == core;
    }
  }

  lemma TrimAround(before: string, core: string, after: string)
    requires AllSpace(before) && AllSpace(after)
    requires core != "" ==> !IsSpace(core[0]) && !IsSpace(core[|core| - 1])
    ensures Trim(before + core + after) == core
  {
    if core == "" {
      assert before + core + after == (before + after) + "";
      TrimLeftBlanks(before + after, "");
      assert TrimRight("") == "";
    } else {
      assert before + core + after == before + (core + after);
      TrimLeftBlanks(before, core + after);
      TrimRightBlanks(core, after);
    }
  }

  lemma ParseIntDigits(digits: string)
    requires digits != "" && AllDigits(digits)
    ensures ParseInt(digits) == if DigitsValue(digits) <= MAX_INT64 then Some(DigitsValue(digits)) else None
  {
    assert IsDigit(digits[0]);
  }

  predicate NoComma(s: string) {
    forall i | 0 <= i < |s| :: s[i] != ','
  }

  lemma TextHasNoComma(e: Element)
    requires e.Valid()
    ensures NoComma(e.Text())
  {
  }

  lemma SplitAtComma(text: string, rest: string)
    requires NoComma(text)
    ensures Split(text + "," + rest) == [text] + Split(rest)
  {
    var s := text + "," + rest;
    IndexOfAt(text, ',', rest);
    assert s == text + [','] + rest;
    assert s[..|text|] == text && s[|text| + 1..] == rest;
  }

  lemma {:induction false} SplitJoin(elements: seq<Element>)
    requires elements != [] && AllValid(elements)
    ensures Split(Join(elements)) == Texts(elements)
  {
    var text := elements[0].Text();
    TextHasNoComma(elements[0]);
    var rest := elements[1..];
    assert Texts(elements) == [text] + Texts(rest);
    if |elements| == 1 {
      IndexOfNone(text, ',');
    } else {
      SplitAtComma(text, Join(rest));
      SplitJoin(rest);
    }
  }

  // ---------------------------------------------------------------------------------------------
  // One element
  // ---------------------------------------------------------------------------------------------

  /** The parser sees blanks and digits where they are. */
  predicate Readable(e: Element) {
    && e.Spec?
    && AllSpace(e.before) && AllSpace(e.afterFirst) && AllSpace(e.beforeLast) && AllSpace(e.after)
    && AllDigits(e.first) && AllDigits(e.last)
  }

  /** Trimming a spec leaves its positions, with only the blanks between them and the dash. */
  lemma TrimSpec(e: Element)
    requires Readable(e)
    ensures var left := if e.first == "" then "" else e.first + e.afterFirst;
            var right := if e.last == "" then "" else e.beforeLast + e.last;
            Trim(e.Text()) == left + "-" + right
  {
    var left := if e.first == "" then "" else e.first + e.afterFirst;
    var right := if e.last == "" then "" else e.beforeLast + e.last;
    var before := if e.first == "" then e.before + e.afterFirst else e.before;
    var after := if e.last == "" then e.beforeLast + e.after else e.after;
    var core := left + "-" + right;
    assert e.Text() == before + core + after;
    assert !IsSpace(core[0]) by { assert e.first != "" ==> IsDigit(e.first[0]) && core[0] == e.first[0]; }
    assert !IsSpace(core[|core| - 1]) by {
      assert e.last != "" ==> IsDigit(e.last[|e.last| - 1]) && core[|core| - 1] == e.last[|e.last| - 1];
    }
    TrimAround(before, core, after);
  }

  lemma TrimFirst(first: string, blanks: string)
    requires AllDigits(first) && AllSpace(blanks)
    ensures Trim(if first == "" then "" else first + blanks) == first
    ensures Trim(if first == "" then "" else blanks + first) == first
  {
    if first != "" {
      assert IsDigit(first[0]) && IsDigit(first[|first| - 1]);
      TrimAround("", first, blanks);
      TrimAround(blanks, first, "");
      assert "" + first + blanks == first + blanks && blanks + first + "" == blanks + first;
    }
  }

  /** The parser reads the positions of a spec as they were printed. */
  lemma ReadParts(e: Element, size: Int64)
    requires Readable(e)
    ensures Trim(e.Text()) != "" && HasDash(e.Text()) && Start(e.Text()) == e.first && Last(e.Text()) == e.last
    ensures Read(e.Text(), size) == if e.first == "" then ReadSuffix(e.last, size) else ReadFrom(e.first, e.last, size)
  {
    TrimSpec(e);
    var left := if e.first == "" then "" else e.first + e.afterFirst;
    var right := if e.last == "" then "" else e.beforeLast + e.last;
    var ra := Trim(e.Text());
    IndexOfAt(left, '-', right);
    assert ra == left + ['-'] + right;
    assert ra[..|left|] == left && ra[|left| + 1..] == right;
    TrimFirst(e.first, e.afterFirst);
    TrimFirst(e.last, e.beforeLast);
  }

  lemma ReadSpec(e: Element, size: Int64)
    requires e.Valid() && e.Spec?
    ensures HasDash(e.Text()) && Start(e.Text()) == e.first && Last(e.Text()) == e.last
    ensures Read(e.Text(), size) == if e.first == "" then ReadSuffix(e.last, size) else ReadFrom(e.first, e.last, size)
  {
    ValidMeans(e);
    ReadParts(e, size);
  }

  lemma WrapInRange(n: int)
    requires MIN_INT64 <= n <= MAX_INT64
    ensures Wrap(n) == n
  {
  }

  lemma SuffixRange(last: string, size: Int64)
    requires last != "" && AllDigits(last) && 0 <= size
    ensures var n: int := if DigitsValue(last) > size then size else DigitsValue(last);
            ReadSuffix(last, size) == if DigitsValue(last) <= MAX_INT64 then Keep(Range(size - n, n)) else Bad
  {
    ParseIntDigits(last);
    var n: int := if DigitsValue(last) > size then size else DigitsValue(last);
    WrapInRange(size - n);
    WrapInRange(n);
  }

  lemma FirstRange(first: string, last: string, size: Int64)
    requires first != "" && AllDigits(first) && 0 <= size
    requires AllDigits(last) && (last != "" ==> DigitsValue(first) <= DigitsValue(last))
    ensures DigitsValue(first) > MAX_INT64 ==> ReadFrom(first, last, size) == Bad
    ensures size <= DigitsValue(first) <= MAX_INT64 ==> ReadFrom(first, last, size) == Past
    ensures DigitsValue(first) < size && DigitsValue(last) > MAX_INT64 ==> ReadFrom(first, last, size) == Bad
    ensures DigitsValue(first) < size && DigitsValue(last) <= MAX_INT64 ==>
              && ReadFrom(first, last, size).Keep?
              && var r := ReadFrom(first, last, size).range;
                 && r.start == DigitsValue(first)
                 && r.start + r.length == if last != "" && DigitsValue(last) < size then DigitsValue(last) + 1 else size
  {
    ParseIntDigits(first);
    if last != "" {
      ParseIntDigits(last);
    }
  }

  /** The range covers exactly the bytes that the spec selects. */
  ghost predicate Covers(r: Range, e: Element, size: Int64)
    requires e.Valid()
  {
    Proper(r, size) && forall b :: r.start <= b < r.start + r.length <==> e.Selects(size, b)
  }

  /** The reading has the bytes of the element right: none for blanks and for a spec that starts past
      the end, else the range of exactly the bytes the spec selects. */
  ghost predicate BytesRight(r: Reading, e: Element, size: Int64)
    requires e.Valid()
  {
    if e.Empty? then r.Skip?
    else if e.StartsPast(size) then r.Past?
    else r.Keep? && Covers(r.range, e, size)
  }

  /** The reading also has it right whether the element can satisfy the request. */
  ghost predicate IsRight(r: Reading, e: Element, size: Int64)
    requires e.Valid()
  {
    BytesRight(r, e, size) && (r.Keep? <==> e.Satisfies(size))
  }

  lemma SuffixBytesRight(e: Element, size: Int64)
    requires e.Valid() && e.Spec? && e.first == "" && 0 <= size
    ensures var r := ReadSuffix(e.last, size);
            && (r.Bad? <==> !e.Fits(size)) && (BytesRight(r, e, size) <==> e.Fits(size))
            && (e.ZeroSuffix() ==> r == Keep(Range(size, 0)))
  {
    ValidMeans(e);
    SuffixRange(e.last, size);
  }

  lemma FirstBytesRight(e: Element, size: Int64)
    requires e.Valid() && e.Spec? && e.first != "" && 0 <= size
    ensures var r := ReadFrom(e.first, e.last, size);
            (r.Bad? <==> !e.Fits(size)) && (BytesRight(r, e, size) <==> e.Fits(size))
  {
    ValidMeans(e);
    FirstRange(e.first, e.last, size);
  }

  /** One printed element: the parser rejects it exactly when a position does not fit, has its bytes
      right otherwise, and is right about it altogether exactly when it also is no suffix of length
      zero; such a suffix becomes an empty range at the end. */
  lemma ReadSelects(e: Element, size: Int64)
    requires e.Valid() && 0 <= size
    ensures Read(e.Text(), size).Bad? <==> !e.Fits(size)
    ensures BytesRight(Read(e.Text(), size), e, size) <==> e.Fits(size)
    ensures IsRight(Read(e.Text(), size), e, size) <==> e.Fits(size) && !e.ZeroSuffix()
    ensures e.ZeroSuffix() ==> Read(e.Text(), size) == Keep(Range(size, 0))
  {
    match e
    case Empty(blanks) =>
      ValidMeans(e);
      TrimAround("", "", blanks);
      assert "" + "" + blanks == blanks;
    case Spec(_, first, _, _, last, _) =>
      ReadSpec(e, size);
      if first == "" {
        SuffixBytesRight(e, size);
      } else {
        FirstBytesRight(e, size);
      }
  }

  // ---------------------------------------------------------------------------------------------
  // The whole header
  // ---------------------------------------------------------------------------------------------

  /** The specs that are not past the end, in order. */
  ghost function Kept(elements: seq<Element>, size: Int64): seq<Element>
    requires AllValid(elements)
  {
    if elements == [] then []
    else (if elements[0].Spec? && !elements[0].StartsPast(size) then [elements[0]] else []) + Kept(elements[1..], size)
  }

  ghost predicate CoverAll(ranges: seq<Range>, specs: seq<Element>, size: Int64) {
    && |ranges| == |specs|
    && forall i | 0 <= i < |specs| :: specs[i].Valid() && Covers(ranges[i], specs[i], size)
  }

  lemma CoverAllCons(r: Range, ranges: seq<Range>, e: Element, specs: seq<Element>, size: Int64)
    requires e.Valid() && Covers(r, e, size) && CoverAll(ranges, specs, size)
    ensures CoverAll([r] + ranges, [e] + specs, size)
  {
  }

  ghost predicate AllFit(elements: seq<Element>, size: Int64)
    requires AllValid(elements)
  {
    forall i | 0 <= i < |elements| :: elements[i].Fits(size)
  }

  lemma {:induction false} CollectCoversKept(readings: seq<Reading>, elements: seq<Element>, size: Int64)
    requires AllValid(elements) && |readings| == |elements|
    requires forall i | 0 <= i < |elements| :: BytesRight(readings[i], elements[i], size)
    ensures CoverAll(Collect(readings), Kept(elements, size), size)
  {
    if elements != [] {
      CollectCoversKept(readings[1..], elements[1..], size);
      assert BytesRight(readings[0], elements[0], size);
      if readings[0].Keep? {
        CoverAllCons(readings[0].range, Collect(readings[1..]), elements[0], Kept(elements[1..], size), size);
      }
    }
  }

  lemma RangesCoverKept(elements: seq<Element>, size: Int64)
    requires AllValid(elements) && AllFit(elements, size) && 0 <= size
    ensures CoverAll(Ranges(Texts(elements), size), Kept(elements, size), size)
  {
    forall i | 0 <= i < |elements| ensures BytesRight(Readings(Texts(elements), size)[i], elements[i], size) {
      ReadSelects(elements[i], size);
    }
    CollectCoversKept(Readings(Texts(elements), size), elements, size);
  }

  lemma BadExactlyIfUnfit(elements: seq<Element>, size: Int64)
    requires AllValid(elements) && 0 <= size
    ensures AnyBad(Texts(elements), size) <==> !AllFit(elements, size)
  {
    forall i | 0 <= i < |elements| ensures Read(Texts(elements)[i], size).Bad? <==> !elements[i].Fits(size) {
      ReadSelects(elements[i], size);
    }
  }

  lemma PastExactlyIfStartsPast(elements: seq<Element>, size: Int64)
    requires AllValid(elements) && AllFit(elements, size) && 0 <= size
    ensures AnyPast(Texts(elements), size) <==> exists i :: 0 <= i < |elements| && elements[i].StartsPast(size)
  {
    forall i | 0 <= i < |elements| ensures Read(Texts(elements)[i], size).Past? <==> elements[i].StartsPast(size) {
      ReadSelects(elements[i], size);
    }
  }

  ghost predicate HasSpec(elements: seq<Element>) {
    exists i :: 0 <= i < |elements| && elements[i].Spec?
  }

  /** Section 2.1 of RFC 7233: some first position is below the size, or some suffix is not empty. */
  ghost predicate Satisfiable(elements: seq<Element>, size: Int64)
    requires AllValid(elements)
  {
    exists i :: 0 <= i < |elements| && elements[i].Satisfies(size)
  }

  /** There are suffixes of length zero, and every other spec starts at or past the end. */
  ghost predicate OnlyZeroSuffixes(elements: seq<Element>, size: Int64)
    requires AllValid(elements)
  {
    && (exists i :: 0 <= i < |elements| && elements[i].ZeroSuffix())
    && (forall i | 0 <= i < |elements| && elements[i].Spec? :: elements[i].ZeroSuffix() || elements[i].StartsPast(size))
  }

  /** What the RFC has a parser answer to a byte-range-set: that nothing overlaps if it is
      unsatisfiable; otherwise, in order, one range for each spec that does not start at or past the
      end of the content, covering exactly the bytes the spec selects. A suffix of length zero may have
      its empty range here; `AnswersSatisfiable` is stricter. */
  ghost predicate AnswersRfc(answer: Parsed, elements: seq<Element>, size: Int64)
    requires AllValid(elements)
  {
    if !Satisfiable(elements, size) then answer.NoOverlap?
    else answer.Ok? && CoverAll(answer.ranges, Kept(elements, size), size)
  }

  lemma {:induction false} NothingKept(elements: seq<Element>, size: Int64)
    requires AllValid(elements)
    ensures Kept(elements, size) == [] <==> forall i | 0 <= i < |elements| :: !elements[i].Spec? || elements[i].StartsPast(size)
  {
    if elements != [] {
      NothingKept(elements[1..], size);
      assert forall i | 1 <= i < |elements| :: elements[i] == elements[1..][i - 1];
    }
  }

  /** What the parser answers to a printed list whose positions fit. */
  lemma FittingHeaderParses(elements: seq<Element>, size: Int64)
    requires elements != [] && AllValid(elements) && AllFit(elements, size) && 0 <= size
    ensures var answer := Meaning(Header(elements), size);
            && (answer.NoOverlap? <==> HasSpec(elements) && Kept(elements, size) == [])
            && (!answer.NoOverlap? ==> answer.Ok? && CoverAll(answer.ranges, Kept(elements, size), size))
  {
    HeaderSplits(elements);
    BadExactlyIfUnfit(elements, size);
    RangesCoverKept(elements, size);
    PastExactlyIfStartsPast(elements, size);
    NothingKept(elements, size);
  }

  lemma HeaderSplits(elements: seq<Element>)
    requires elements != [] && AllValid(elements)
    ensures Header(elements) != "" && BYTES <= Header(elements) && Split(Header(elements)[|BYTES|..]) == Texts(elements)
  {
    assert Header(elements)[|BYTES|..] == Join(elements);
    SplitJoin(elements);
  }

  /** For every list of specs, however printed: the parser calls the header invalid exactly when a
      position that it reads does not fit 64 bits; it answers as the RFC says exactly when all fit and
      the specs inside the content are not all suffixes of length zero; and a list of blanks, which is
      no byte-range-set, yields no ranges. */
  lemma PrintedHeaderParses(elements: seq<Element>, size: Int64)
    requires elements != [] && AllValid(elements) && 0 <= size
    ensures var answer := Meaning(Header(elements), size);
            && (answer.Invalid? <==> !AllFit(elements, size))
            && (HasSpec(elements) ==>
                  (AnswersRfc(answer, elements, size) <==> AllFit(elements, size) && !OnlyZeroSuffixes(elements, size)))
            && (!HasSpec(elements) ==> answer == Ok([]))
  {
    HeaderSplits(elements);
    BadExactlyIfUnfit(elements, size);
    if AllFit(elements, size) {
      FittingHeaderParses(elements, size);
      NothingKept(elements, size);
    }
  }

  /** The specs that satisfy the request, in order. */
  ghost function Satisfying(elements: seq<Element>, size: Int64): seq<Element>
    requires AllValid(elements)
  {
    if elements == [] then []
    else (if elements[0].Satisfies(size) then [elements[0]] else []) + Satisfying(elements[1..], size)
  }

  ghost predicate NoZeroSuffix(elements: seq<Element>)
    requires AllValid(elements)
  {
    forall i | 0 <= i < |elements| :: !elements[i].ZeroSuffix()
  }

  lemma {:induction false} KeptOrSatisfying(elements: seq<Element>, size: Int64)
    requires AllValid(elements)
    ensures |Satisfying(elements, size)| <= |Kept(elements, size)|
    ensures NoZeroSuffix(elements) <==> |Satisfying(elements, size)| == |Kept(elements, size)|
    ensures NoZeroSuffix(elements) ==> Satisfying(elements, size) == Kept(elements, size)
  {
    if elements != [] {
      var rest := elements[1..];
      KeptOrSatisfying(rest, size);
      assert NoZeroSuffix(elements) <==> !elements[0].ZeroSuffix() && NoZeroSuffix(rest) by {
        assert forall i | 1 <= i < |elements| :: elements[i] == rest[i - 1];
        assert forall i | 0 <= i < |rest| :: rest[i] == elements[i + 1];
      }
    }
  }

  /** The answer of section 4.1 of RFC 7233, whose parts correspond to the satisfiable ranges only: as
      above, but without a range for a suffix of length zero. */
  ghost predicate AnswersSatisfiable(answer: Parsed, elements: seq<Element>, size: Int64)
    requires AllValid(elements)
  {
    if !Satisfiable(elements, size) then answer.NoOverlap?
    else answer.Ok? && CoverAll(answer.ranges, Satisfying(elements, size), size)
  }

  /** The parser has a range for the satisfiable specs only exactly when all positions that it reads fit
      64 bits and no spec at all is a suffix of length zero. */
  lemma SatisfiableExactlyWithoutZeroSuffix(elements: seq<Element>, size: Int64)
    requires AllValid(elements) && HasSpec(elements) && 0 <= size
    ensures AnswersSatisfiable(Meaning(Header(elements), size), elements, size) <==> AllFit(elements, size) && NoZeroSuffix(elements)
  {
    PrintedHeaderParses(elements, size);
    KeptOrSatisfying(elements, size);
    if AllFit(elements, size) {
      FittingHeaderParses(elements, size);
      NothingKept(elements, size);
    }
  }

  /** The parser's error on such a list: it accepts it, with nothing but empty ranges at the end. */
  lemma {:induction false} ZeroSuffixesAreAccepted(elements: seq<Element>, size: Int64)
    requires elements != [] && AllValid(elements) && AllFit(elements, size) && 0 <= size && OnlyZeroSuffixes(elements, size)
    ensures !Satisfiable(elements, size) && Meaning(Header(elements), size).Ok? && Meaning(Header(elements), size).ranges != []
    ensures forall r | r in Meaning(Header(elements), size).ranges :: r == Range(size, 0)
  {
    HeaderSplits(elements);
    FittingHeaderParses(elements, size);
    NothingKept(elements, size);
    forall r | r in Ranges(Texts(elements), size) ensures r == Range(size, 0) {
      RangesOf(Texts(elements), size, r);
      var text :| text in Texts(elements) && Read(text, size) == Keep(r);
      var i :| 0 <= i < |elements| && Texts(elements)[i] == text;
      ReadSelects(elements[i], size);
    }
  }

  lemma EmptyExactlyForZero(e: Element, size: Int64)
    requires e.Valid() && e.Fits(size) && 0 < size && Read(e.Text(), size).Keep?
    ensures Read(e.Text(), size).range.length == 0 <==> e.ZeroSuffix()
  {
    ReadSelects(e, size);
    var r := Read(e.Text(), size).range;
    assert e.first == "" && !e.ZeroSuffix() ==> e.Selects(size, size - 1);
    assert e.first != "" ==> e.Selects(size, Number(e.first));
  }

  /** Of a content that is not empty, an accepted header has an empty range exactly when one of its
      specs is a suffix of length zero. */
  lemma EmptyRangesExactlyFromZeroSuffixes(elements: seq<Element>, size: Int64)
    requires elements != [] && AllValid(elements) && 0 < size && Meaning(Header(elements), size).Ok?
    ensures (exists r :: r in Meaning(Header(elements), size).ranges && r.length == 0)
            <==> exists i :: 0 <= i < |elements| && elements[i].ZeroSuffix()
  {
    HeaderSplits(elements);
    BadExactlyIfUnfit(elements, size);
    var texts := Texts(elements);
    if r :| r in Ranges(texts, size) && r.length == 0 {
      RangesOf(texts, size, r);
      var text :| text in texts && Read(text, size) == Keep(r);
      var i :| 0 <= i < |elements| && texts[i] == text;
      EmptyExactlyForZero(elements[i], size);
    }
    if i :| 0 <= i < |elements| && elements[i].ZeroSuffix() {
      ReadSelects(elements[i], size);
      assert texts[i] in texts;
      RangesOf(texts, size, Range(size, 0));
    }
  }

  /** It does happen: the request is unsatisfiable, and accepted with an empty range. */
  lemma ZeroSuffixExample()
    ensures Meaning("bytes=-0", 10).Ok? && Meaning("bytes=-0", 10).ranges != []
    ensures forall r | r in Meaning("bytes=-0", 10).ranges :: r == Range(10, 0)
  {
    var e := Spec("", "", "", "", "0", "");
    assert Number("0") == 0;
    assert [e][0].ZeroSuffix();
    assert Header([e]) == "bytes=-0";
    ZeroSuffixesAreAccepted([e], 10);
  }

  lemma TimesAtLeastOne(d: nat, n: nat)
    requires d >= 1
    ensures d * n >= n
  {
  }

  lemma {:induction false} LongIsLarge(digits: string)
    requires digits != "" && IsDecimal(digits) && digits[0] != '0'
    ensures Number(digits) >= Pow10(|digits| - 1)
  {
    TimesAtLeastOne(Digit(digits[0]), Pow10(|digits| - 1));
  }

  /** A number of twenty digits does not fit. */
  lemma TwentyDigits(digits: string)
    requires |digits| == 20 && IsDecimal(digits) && digits[0] != '0'
    ensures Number(digits) > 0x7FFF_FFFF_FFFF_FFFF
  {
    LongIsLarge(digits);
    assert Pow10(5) == 100_000;
    assert Pow10(10) == 10_000_000_000;
    assert Pow10(15) == 1_000_000_000_000_000;
    assert Pow10(19) == 10_000_000_000_000_000_000;
  }

  /** A spec from the first byte to a last position that does not fit: the RFC selects the whole
      content, the parser rejects the header. */
  lemma LargeLastIsRejected(last: string, size: Int64)
    requires IsDecimal(last) && Number(last) > 0x7FFF_FFFF_FFFF_FFFF && 0 < size
    ensures var e := Spec("", "0", "", "", last, "");
            && e.Valid() && (forall b | 0 <= b < size :: e.Selects(size, b))
            && Meaning(Header([e]), size) == Invalid
  {
    var e := Spec("", "0", "", "", last, "");
    assert Number("0") == 0;
    PrintedHeaderParses([e], size);
    assert ![e][0].Fits(size);
  }

  lemma TwentyDigitsAreRejected(last: string)
    requires |last| == 20 && IsDecimal(last) && last[0] != '0'
    ensures Meaning("bytes=0-" + last, 10) == Invalid
  {
    TwentyDigits(last);
    LargeLastIsRejected(last, 10);
    assert Header([Spec("", "0", "", "", last, "")]) == "bytes=0-" + last;
  }

  /** It does happen. */
  lemma LargeLastExample()
    ensures Meaning("bytes=0-" + "10000000000000000000", 10) == Invalid
  {
    TwentyDigitsAreRejected("10000000000000000000");
  }
}
