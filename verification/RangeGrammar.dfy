/**
  Which header texts outside the grammar of RFC 7233 the parser of client/clientutil/range.go lets
  through.

  Every header text that is not rejected is a printed list of specs, to which `RangePrinting` applies,
  unless an element slips through: a number has a sign, a line break stands among the blanks, or the
  last position is not read because the first is at or past the end of the content.
 */
module RangeGrammar {
  import opened RangeHeader
  import opened RangePrinting
  import opened Wrappers

  /** The text is blanks or a spec of the grammar. */
  ghost predicate InGrammar(text: string) {
    exists e: Element :: e.Valid() && e.Text() == text
  }

  /** The list is one of the grammar. */
  ghost predicate IsPrinted(s: string) {
    exists elements :: elements != [] && AllValid(elements) && Header(elements) == s
  }

  predicate Signed(s: string) {
    s != "" && (s[0] == '+' || s[0] == '-')
  }

  /** What may stand after the dash when the first position is this number. */
  predicate IsLast(last: string, first: int) {
    last == "" || (IsDecimal(last) && first <= Number(last))
  }

  predicate HasLineBreak(text: string) {
    '\n' in text || '\r' in text
  }

  /** The element has a line break or a sign, where the grammar has none, or starts at or past the end
      with a last position that the grammar does not allow. */
  predicate Slips(text: string, size: Int64) {
    || HasLineBreak(text)
    || (&& HasDash(text)
        && var start, last := Start(text), Last(text);
           || Signed(start) || Signed(last)
           || (ParseInt(start).Some? && ParseInt(start).value >= size && !IsLast(last, ParseInt(start).value)))
  }

  // ---------------------------------------------------------------------------------------------
  // Taking a text apart
  // ---------------------------------------------------------------------------------------------

  lemma {:induction false} TrimLeftLeaves(s: string) returns (blanks: string)
    ensures AllSpace(blanks) && s == blanks + TrimLeft(s)
    decreases |s|
  {
    if s != "" && IsSpace(s[0]) {
      var more := TrimLeftLeaves(s[1..]);
      blanks := [s[0]] + more;
      assert s == [s[0]] + s[1..];
    } else {
      blanks := "";
    }
  }

  lemma {:induction false} TrimRightLeaves(s: string) returns (blanks: string)
    ensures AllSpace(blanks) && s == TrimRight(s) + blanks
    decreases |s|
  {
    if s != "" && IsSpace(s[|s| - 1]) {
      var more := TrimRightLeaves(s[..|s| - 1]);
      blanks := more + [s[|s| - 1]];
      assert s == s[..|s| - 1] + [s[|s| - 1]];
    } else {
      blanks := "";
    }
  }

  /** Trimming takes blanks from both ends and nothing else. */
  lemma TrimLeaves(s: string) returns (before: string, after: string)
    ensures AllSpace(before) && AllSpace(after) && s == before + Trim(s) + after
  {
    before := TrimLeftLeaves(s);
    after := TrimRightLeaves(TrimLeft(s));
    assert s == before + (Trim(s) + after);
  }

  lemma SpaceJoins(a: string, b: string)
    requires AllSpace(a) && AllSpace(b)
    ensures AllSpace(a + b)
  {
  }

  /** An element with a dash is its two numbers with blanks around them. */
  lemma TakesApart(text: string) returns (e: Element)
    requires HasDash(text)
    ensures e.Spec? && e.first == Start(text) && e.last == Last(text) && e.Text() == text
    ensures AllSpace(e.before) && AllSpace(e.afterFirst) && AllSpace(e.beforeLast) && AllSpace(e.after)
  {
    var ra := Trim(text);
    IndexOfFirst(ra, '-');
    var i := IndexOf(ra, '-');
    var before, after := TrimLeaves(text);
    var b1, a1 := TrimLeaves(ra[..i]);
    var b2, a2 := TrimLeaves(ra[i + 1..]);
    SpaceJoins(before, b1);
    SpaceJoins(a2, after);
    e := Spec(before + b1, Start(text), a1, b2, Last(text), a2 + after);
    assert ra == ra[..i] + "-" + ra[i + 1..];
    Regroup(before, b1, e.first, a1, b2, e.last, a2, after);
  }

  lemma Regroup(before: string, b1: string, first: string, a1: string, b2: string, last: string, a2: string, after: string)
    ensures before + ((b1 + first + a1) + "-" + (b2 + last + a2)) + after
            == (before + b1) + first + a1 + "-" + b2 + last + (a2 + after)
  {
  }

  // ---------------------------------------------------------------------------------------------
  // One element
  // ---------------------------------------------------------------------------------------------

  /** A number that is read and has no sign is a digit string. */
  lemma UnsignedIsDigits(s: string)
    requires ParseInt(s).Some? && !Signed(s)
    ensures s != "" && IsDecimal(s) && Number(s) == ParseInt(s).value
  {
    DecimalIsDigits(s);
    ValueIsNumber(s);
  }

  lemma SpaceIsBlank(s: string)
    requires AllSpace(s) && !HasLineBreak(s)
    ensures IsBlank(s)
  {
    assert forall i | 0 <= i < |s| :: s[i] in s;
  }

  lemma PartsHaveNoLineBreak(e: Element)
    requires e.Spec? && !HasLineBreak(e.Text())
    ensures !HasLineBreak(e.before) && !HasLineBreak(e.afterFirst) && !HasLineBreak(e.beforeLast) && !HasLineBreak(e.after)
  {
  }

  lemma DigitsAreUnsigned(s: string)
    requires IsDecimal(s)
    ensures !Signed(s)
  {
    assert s != "" ==> '0' <= s[0] <= '9';
  }

  lemma AcceptedSpecIsValid(text: string, size: Int64, e: Element)
    requires HasDash(text) && !Read(text, size).Bad? && Trim(text) != "" && !Slips(text, size)
    requires e.Spec? && e.first == Start(text) && e.last == Last(text) && e.Text() == text
    requires AllSpace(e.before) && AllSpace(e.afterFirst) && AllSpace(e.beforeLast) && AllSpace(e.after)
    ensures e.Valid()
  {
    PartsHaveNoLineBreak(e);
    SpaceIsBlank(e.before);
    SpaceIsBlank(e.afterFirst);
    SpaceIsBlank(e.beforeLast);
    SpaceIsBlank(e.after);
    if e.first == "" {
      UnsignedIsDigits(e.last);
    } else {
      UnsignedIsDigits(e.first);
      if ParseInt(e.first).value < size && e.last != "" {
        UnsignedIsDigits(e.last);
      }
    }
  }

  /** An element that is not rejected is in the grammar exactly when it does not slip through. */
  lemma AcceptedIsInGrammar(text: string, size: Int64)
    requires !Read(text, size).Bad? && 0 <= size
    ensures InGrammar(text) <==> !Slips(text, size)
  {
    if !Slips(text, size) {
      if Trim(text) == "" {
        BlankIsInGrammar(text);
      } else {
        var e := TakesApart(text);
        AcceptedSpecIsValid(text, size, e);
      }
    }
    if e: Element :| e.Valid() && e.Text() == text {
      GrammarDoesNotSlip(e, size);
    }
  }

  lemma BlankIsInGrammar(text: string)
    requires Trim(text) == "" && !HasLineBreak(text)
    ensures InGrammar(text)
  {
    var before, after := TrimLeaves(text);
    SpaceJoins(before, after);
    assert text == before + after;
    SpaceIsBlank(text);
    assert Empty(text).Valid() && Empty(text).Text() == text;
  }

  lemma GrammarHasNoLineBreak(e: Element)
    requires e.Valid()
    ensures !HasLineBreak(e.Text())
  {
  }

  lemma GrammarDoesNotSlip(e: Element, size: Int64)
    requires e.Valid() && 0 <= size
    ensures !Slips(e.Text(), size)
  {
    ValidMeans(e);
    GrammarHasNoLineBreak(e);
    match e
    case Empty(blanks) =>
      TrimAround("", "", blanks);
      assert "" + "" + blanks == blanks;
    case Spec(_, first, _, _, last, _) =>
      ReadSpec(e, size);
      DigitsAreUnsigned(first);
      DigitsAreUnsigned(last);
      if first != "" {
        ParseIntDigits(first);
      }
  }

  // ---------------------------------------------------------------------------------------------
  // The whole header
  // ---------------------------------------------------------------------------------------------

  lemma {:induction false} JoinIsInverse(s: string, elements: seq<Element>)
    requires elements != [] && Split(s) == Texts(elements)
    ensures Join(elements) == s
    decreases |s|
  {
    IndexOfFirst(s, ',');
    var i := IndexOf(s, ',');
    assert Texts(elements)[0] == elements[0].Text();
    if i < |s| {
      var rest := elements[1..];
      assert Split(s[i + 1..]) == Split(s)[1..] == Texts(elements)[1..] == Texts(rest);
      assert rest != [];
      JoinIsInverse(s[i + 1..], rest);
      assert s == s[..i] + "," + s[i + 1..];
    } else {
      assert |elements| == |Texts(elements)| == 1;
    }
  }

  lemma {:induction false} ElementsOf(texts: seq<string>) returns (elements: seq<Element>)
    requires forall i | 0 <= i < |texts| :: InGrammar(texts[i])
    ensures AllValid(elements) && Texts(elements) == texts
  {
    if texts == [] {
      elements := [];
    } else {
      var rest := ElementsOf(texts[1..]);
      var e: Element :| e.Valid() && e.Text() == texts[0];
      elements := [e] + rest;
      assert Texts(elements) == [e.Text()] + Texts(rest);
    }
  }

  ghost predicate AllInGrammar(texts: seq<string>) {
    forall i | 0 <= i < |texts| :: InGrammar(texts[i])
  }

  lemma PrintedIsInGrammar(elements: seq<Element>)
    requires elements != [] && AllValid(elements)
    ensures BYTES <= Header(elements) && AllInGrammar(Split(Header(elements)[|BYTES|..]))
  {
    HeaderSplits(elements);
    forall i | 0 <= i < |elements| ensures InGrammar(Texts(elements)[i]) {
      assert elements[i].Valid() && elements[i].Text() == Texts(elements)[i];
    }
  }

  lemma InGrammarIsPrinted(s: string)
    requires BYTES <= s && AllInGrammar(Split(s[|BYTES|..]))
    ensures IsPrinted(s)
  {
    var elements := ElementsOf(Split(s[|BYTES|..]));
    assert elements != [] by { assert |Texts(elements)| == |elements|; }
    JoinIsInverse(s[|BYTES|..], elements);
    assert s == BYTES + s[|BYTES|..];
    assert Header(elements) == s;
  }

  /** For every header text: one that is not rejected is a printed list of the grammar exactly when none
      of its elements slips through. */
  lemma AcceptedIsPrinted(s: string, size: Int64)
    requires BYTES <= s && 0 <= size && !Meaning(s, size).Invalid?
    ensures IsPrinted(s) <==> forall i | 0 <= i < |Split(s[|BYTES|..])| :: !Slips(Split(s[|BYTES|..])[i], size)
  {
    var texts := Split(s[|BYTES|..]);
    assert !AnyBad(texts, size);
    forall i | 0 <= i < |texts| ensures InGrammar(texts[i]) <==> !Slips(texts[i], size) {
      assert !Read(texts[i], size).Bad?;
      AcceptedIsInGrammar(texts[i], size);
    }
    if elements: seq<Element> :| elements != [] && AllValid(elements) && Header(elements) == s {
      PrintedIsInGrammar(elements);
    }
    if AllInGrammar(texts) {
      InGrammarIsPrinted(s);
    }
  }

  /** A number is read exactly when it is decimal digits, with or without a sign, and fits 64 bits. */
  lemma NumberIsRead(s: string, v: int)
    ensures (ParseInt(s).Some? && ParseInt(s).value == v) <==>
              || (s != "" && IsDecimal(s) && v == Number(s) && v <= 0x7FFF_FFFF_FFFF_FFFF)
              || (|s| > 1 && s[0] == '+' && IsDecimal(s[1..]) && v == Number(s[1..]) && v <= 0x7FFF_FFFF_FFFF_FFFF)
              || (|s| > 1 && s[0] == '-' && IsDecimal(s[1..]) && v == 0 - Number(s[1..]) && -0x8000_0000_0000_0000 <= v)
  {
    DecimalIsDigits(s);
    if AllDigits(s) {
      ValueIsNumber(s);
    }
    if s != "" {
      DecimalIsDigits(s[1..]);
      if AllDigits(s[1..]) {
        ValueIsNumber(s[1..]);
      }
    }
  }

  /** It does happen: a signed suffix is accepted. */
  lemma SignedSuffixExample()
    ensures Slips("-+5", 10) && Read("-+5", 10) == Keep(Range(5, 5))
  {
    assert TrimLeft("-+5") == "-+5" && TrimRight("-+5") == "-+5";
    assert "-+5"[..0] == "" && "-+5"[1..] == "+5";
    assert Trim("") == "" && Trim("+5") == "+5";
    assert "+5"[1..] == "5" && "5"[..0] == "" && DigitsValue("5") == 5;
  }

  /** It does happen: anything may follow a first position past the end. */
  lemma UnreadLastExample()
    ensures Slips("20-x", 10) && Read("20-x", 10) == Past
  {
    var text := "20-x";
    assert TrimLeft(text) == text && TrimRight(text) == text;
    assert text == "20" + ['-'] + "x";
    IndexOfAt("20", '-', "x");
    assert text[..2] == "20" && text[3..] == "x";
    assert TrimLeft("20") == "20" && TrimRight("20") == "20" && Trim("x") == "x";
    assert "20"[..1] == "2" && "2"[..0] == "" && DigitsValue("2") == 2 && DigitsValue("20") == 20;
  }
}
