/**
 * The two up-front checks of converter/converter.go, `ValidateFormat` and
 * `ValidatePageRange`, and how each relates to the code that later relies
 * on it: the image-encoder dispatch of `saveImage`, and the page-range
 * resolver `parsePageRange`.
 *
 * `ValidatePageRange` matches the regular expression
 * `^(\d+(-\d+)?)(,\s*\d+(-\d+)?)*$`; it is modelled here by the
 * deterministic automaton that recognises that expression, proved equal to
 * a clause-by-clause description of the same language.
 */
module Validation {
  import opened Wrappers
  import opened GoStrings
  import opened PageSelection

  /** The errors the two validators return. */
  datatype ValidationError =
    | InvalidFormat(format: string)     // "invalid format: %s (must be png or jpeg)", lower-cased
    | InvalidRangeSyntax(expr: string)  // "invalid page range format: %s", normalized

  // -----------------------------------------------------------------------
  // Image format

  /** The encoders `saveImage` can write with. */
  datatype Encoder = Png | Jpeg

  /**
   * The format switch of `saveImage`: `None` is its "unsupported format"
   * error. It has an encoder for exactly the formats `ValidateFormat` accepts.
   */
  function EncoderFor(format: string): (r: Option<Encoder>)
    ensures r.Some? <==> ValidateFormat(format).None?
  {
    var f := ToLower(format);
    if f == "jpeg" || f == "jpg" then Some(Jpeg)
    else if f == "png" then Some(Png)
    else None
  }

  /** `ValidateFormat`: `None` means the format is accepted. */
  function ValidateFormat(format: string): (r: Option<ValidationError>)
    ensures r.Some? ==> r.value == InvalidFormat(ToLower(format))
  {
    var f := ToLower(format);
    if f != "png" && f != "jpeg" && f != "jpg" then Some(InvalidFormat(f)) else None
  }

  /** Validation ignores letter case: a format and its lower-cased form get the same verdict. */
  lemma FormatIgnoresCase(format: string)
    ensures ValidateFormat(ToLower(format)) == ValidateFormat(format)
    ensures EncoderFor(ToLower(format)) == EncoderFor(format)
  {
    ToLowerIdempotent(format);
  }

  lemma ToLowerIdempotent(s: string)
    ensures ToLower(ToLower(s)) == ToLower(s)
  {
  }

  /** Spellings the check accepts and rejects; it neither trims nor knows "gif". */
  lemma FormatExamples()
    ensures ValidateFormat("JPG").None? && EncoderFor("JPG") == Some(Jpeg)
    ensures ValidateFormat("Png").None? && EncoderFor("Png") == Some(Png)
    ensures ValidateFormat("GIF") == Some(InvalidFormat("gif"))
    ensures ValidateFormat("png ") == Some(InvalidFormat("png "))
  {
    assert ToLower("JPG") == "jpg";
    assert ToLower("Png") == "png";
    assert ToLower("GIF") == "gif";
    assert ToLower("png ") == "png ";
  }

  // -----------------------------------------------------------------------
  // The page-range pattern as an automaton

  /** Where the matcher of `^(\d+(-\d+)?)(,\s*\d+(-\d+)?)*$` stands. */
  datatype ScanState =
    | Start       // before the first clause: a digit must come
    | InFirst     // inside the first number of a clause
    | AfterDash   // just after '-': a digit must come
    | InSecond    // inside the number after '-'
    | AfterComma  // after ',', skipping `\s*`: a digit must come
    | Dead        // no match is possible any more

  /** `\s` of Go's regular expressions: `[\t\n\f\r ]`. */
  predicate IsRegexSpace(c: char) {
    c == '\t' || c == '\n' || c == '\U{000C}' || c == '\r' || c == ' '
  }

  function Step(st: ScanState, c: char): ScanState {
    match st
    case Start => if IsDigit(c) then InFirst else Dead
    case InFirst =>
      if IsDigit(c) then InFirst else if c == '-' then AfterDash else if c == ',' then AfterComma else Dead
    case AfterDash => if IsDigit(c) then InSecond else Dead
    case InSecond => if IsDigit(c) then InSecond else if c == ',' then AfterComma else Dead
    case AfterComma => if IsDigit(c) then InFirst else if IsRegexSpace(c) then AfterComma else Dead
    case Dead => Dead
  }

  function Run(s: string, st: ScanState): ScanState {
    if s == [] then st else Run(s[1..], Step(st, s[0]))
  }

  /** A whole clause has been read: the pattern may end here. */
  predicate Accepting(st: ScanState) {
    st == InFirst || st == InSecond
  }

  predicate MatchesRangePattern(s: string) {
    Accepting(Run(s, Start))
  }

  /** `ValidatePageRange`: `None` means the expression is accepted. */
  function ValidatePageRange(rangeStr: string): (r: Option<ValidationError>)
    ensures SelectsAll(Normalize(rangeStr)) ==> r.None?
    ensures r.Some? ==> r.value == InvalidRangeSyntax(Normalize(rangeStr))
  {
    var s := Normalize(rangeStr);
    if SelectsAll(s) then None
    else if !MatchesRangePattern(s) then Some(InvalidRangeSyntax(s))
    else None
  }

  // -----------------------------------------------------------------------
  // The same language, clause by clause

  /** The text left once leading `\s` characters are skipped. */
  function DropRegexSpaces(s: string): (r: string)
    ensures r == [] || !IsRegexSpace(r[0])
  {
    if s != [] && IsRegexSpace(s[0]) then DropRegexSpaces(s[1..]) else s
  }

  /** `\d+(-\d+)?`: one number, or two joined by a single '-'. */
  predicate IsTerm(t: string) {
    var sides := Split(t, '-');
    |sides| <= 2 && forall j :: 0 <= j < |sides| ==> IsDigits(sides[j])
  }

  /**
   * The pattern's language: the first comma-separated clause is a term, and
   * every later clause is a term after leading `\s` characters.
   */
  predicate WellFormedRange(s: string) {
    var parts := Split(s, ',');
    IsTerm(parts[0]) && forall i :: 1 <= i < |parts| ==> IsTerm(DropRegexSpaces(parts[i]))
  }

  /** The automaton accepts exactly the well-formed expressions. */
  lemma PatternIsGrammar(s: string)
    ensures MatchesRangePattern(s) <==> WellFormedRange(s)
  {
    ClausesRun(s, Start);
  }

  /** Every clause after the first is a term once leading `\s` is skipped. */
  predicate SpacedTerms(parts: seq<string>) {
    forall i :: 0 <= i < |parts| ==> IsTerm(DropRegexSpaces(parts[i]))
  }

  lemma {:induction false} ClausesRun(s: string, st: ScanState)
    requires st == Start || st == AfterComma
    ensures var parts := Split(s, ',');
      Accepting(Run(s, st)) <==>
        (if st == Start then IsTerm(parts[0]) else IsTerm(DropRegexSpaces(parts[0]))) &&
        SpacedTerms(parts[1..])
    decreases |s|
  {
    if ',' !in s {
      ClauseRun(s, st);
    } else {
      var a, b := CutAtFirst(s, ',');
      assert Split(s, ',')[1..] == Split(b, ',');
      RunThrough(a, ',', b, st);
      ClauseRun(a, st);
      var mid := Run(a, st);
      if Accepting(mid) {
        ClausesRun(b, AfterComma);
        var bs := Split(b, ',');
        assert SpacedTerms(bs) <==> IsTerm(DropRegexSpaces(bs[0])) && SpacedTerms(bs[1..]) by {
          assert bs == [bs[0]] + bs[1..];
        }
      } else {
        DeadStays(b);
      }
    }
  }

  /** A single clause, read from the start or after a comma. */
  lemma ClauseRun(w: string, st: ScanState)
    requires st == Start || st == AfterComma
    requires ',' !in w
    ensures Accepting(Run(w, st)) <==> if st == Start then IsTerm(w) else IsTerm(DropRegexSpaces(w))
  {
    if st == Start {
      TermRun(w);
    } else {
      SkipSpaces(w);
      DropRegexSpacesKeeps(w, ',');
      TermRun(DropRegexSpaces(w));
    }
  }

  /** After a comma, `\s*` is skipped and the clause is read as from the start. */
  lemma {:induction false} SkipSpaces(w: string)
    ensures Accepting(Run(w, AfterComma)) == Accepting(Run(DropRegexSpaces(w), Start))
  {
    if w != [] {
      if IsRegexSpace(w[0]) {
        SkipSpaces(w[1..]);
      } else {
        assert Step(AfterComma, w[0]) == Step(Start, w[0]);
      }
    }
  }

  lemma {:induction false} DropRegexSpacesKeeps(s: string, c: char)
    requires c !in s
    ensures c !in DropRegexSpaces(s)
  {
    if s != [] && IsRegexSpace(s[0]) {
      assert s == [s[0]] + s[1..];
      DropRegexSpacesKeeps(s[1..], c);
    }
  }

  /** One comma-free clause read from the start ends accepting exactly when it is a term. */
  lemma TermRun(w: string)
    requires ',' !in w
    ensures Accepting(Run(w, Start)) <==> IsTerm(w)
  {
    if '-' !in w {
      assert Split(w, '-') == [w];
      assert Split(w, '-')[0] == w;
      NumberRun(w, Start, InFirst);
    } else {
      var c, d := CutAtFirst(w, '-');
      TermOfCut(c, d);
      RunThrough(c, '-', d, Start);
      NumberRun(c, Start, InFirst);
      if IsDigits(c) {
        SecondNumberRun(d);
      } else {
        DeadStays(d);
      }
    }
  }

  /** A text with a '-' is a term exactly when a number precedes its first '-' and one follows. */
  lemma TermOfCut(c: string, d: string)
    requires '-' !in c
    ensures IsTerm(c + ['-'] + d) <==> IsDigits(c) && '-' !in d && IsDigits(d)
  {
    SplitConcat(c, d, '-');
    var sides := Split(c + ['-'] + d, '-');
    assert sides == [c] + Split(d, '-');
    if '-' !in d {
      assert sides == [c, d];
      assert sides[0] == c && sides[1] == d;
    } else {
      assert |sides| > 2;
    }
  }

  /** The text after a clause's '-' ends accepting exactly when it is one number. */
  lemma SecondNumberRun(d: string)
    requires ',' !in d
    ensures Accepting(Run(d, AfterDash)) <==> '-' !in d && IsDigits(d)
  {
    if '-' !in d {
      NumberRun(d, AfterDash, InSecond);
    } else {
      var e, f := CutAtFirst(d, '-');
      RunThrough(e, '-', f, AfterDash);
      NumberRun(e, AfterDash, InSecond);
      DeadStays(f);
    }
  }

  /** A run of digits read from a number's entry state. */
  lemma NumberRun(w: string, entry: ScanState, inside: ScanState)
    requires (entry, inside) == (Start, InFirst) || (entry, inside) == (AfterDash, InSecond)
    requires '-' !in w && ',' !in w
    ensures Run(w, entry) == if w == [] then entry else if AllDigits(w) then inside else Dead
  {
    if w != [] {
      assert w == [w[0]] + w[1..];
      InsideRun(w[1..], inside);
      if !IsDigit(w[0]) {
        DeadStays(w[1..]);
      }
    }
  }

  lemma {:induction false} InsideRun(w: string, inside: ScanState)
    requires inside == InFirst || inside == InSecond
    requires '-' !in w && ',' !in w
    ensures Run(w, inside) == if AllDigits(w) then inside else Dead
  {
    if w != [] {
      assert w == [w[0]] + w[1..];
      if IsDigit(w[0]) {
        InsideRun(w[1..], inside);
      } else {
        DeadStays(w[1..]);
      }
    }
  }

  lemma {:induction false} DeadStays(s: string)
    ensures Run(s, Dead) == Dead
  {
    if s != [] {
      DeadStays(s[1..]);
    }
  }

  /** Reading a separator between two texts. */
  lemma RunThrough(a: string, c: char, b: string, st: ScanState)
    ensures Run(a + [c] + b, st) == Run(b, Step(Run(a, st), c))
  {
    RunConcat(a, [c] + b, st);
    assert a + [c] + b == a + ([c] + b);
    assert ([c] + b)[1..] == b;
  }

  lemma {:induction false} RunConcat(u: string, v: string, st: ScanState)
    ensures Run(u + v, st) == Run(v, Run(u, st))
  {
    if u == [] {
      assert u + v == v;
    } else {
      assert (u + v)[1..] == u[1..] + v;
      RunConcat(u[1..], v, Step(st, u[0]));
    }
  }

  // -----------------------------------------------------------------------
  // The syntax check against the resolver

  /**
   * Whatever `ValidatePageRange` accepts, `parsePageRange` resolves, or
   * rejects only because a page lies outside the document.
   */
  lemma ValidatedRangeResolves(rangeStr: string, totalPages: nat)
    requires ValidatePageRange(rangeStr).None?
    ensures PageRange(rangeStr, totalPages).Ok? || PageRange(rangeStr, totalPages).error.IsBoundsError()
  {
    var s := Normalize(rangeStr);
    if !SelectsAll(s) {
      PatternIsGrammar(s);
      var parts := Split(s, ',');
      forall i | 0 <= i < |parts| && TrimSpace(parts[i]) != ""
        ensures ClausePages(TrimSpace(parts[i]), totalPages).Ok? ||
                ClausePages(TrimSpace(parts[i]), totalPages).error.IsBoundsError()
      {
        WellFormedClause(s, i, totalPages);
      }
      SelectionOkOrBounds(parts, totalPages);
      PageRangeOfClauses(rangeStr, totalPages);
      WellFormedClause(s, 0, totalPages);
      TermEnds(TrimSpace(parts[0]));
      NoValidPagesExactly(rangeStr, totalPages);
    }
  }

  /** Each clause of a well-formed expression trims to a term. */
  lemma WellFormedClause(s: string, i: nat, totalPages: nat)
    requires WellFormedRange(s) && i < |Split(s, ',')|
    ensures var part := TrimSpace(Split(s, ',')[i]);
      IsTerm(part) && (ClausePages(part, totalPages).Ok? || ClausePages(part, totalPages).error.IsBoundsError())
  {
    var parts := Split(s, ',');
    assert IsTerm(TrimSpace(parts[i])) by {
      if i == 0 {
        TermTrimmed(parts[0]);
      } else {
        TrimSpacedTerm(parts[i]);
      }
    }
    TermClause(TrimSpace(parts[i]), totalPages);
  }

  /** A term has no white space to trim. */
  lemma TermTrimmed(t: string)
    requires IsTerm(t)
    ensures TrimSpace(t) == t
  {
    TermEnds(t);
    DigitNotSpace(t[0]);
    DigitNotSpace(t[|t| - 1]);
    TrimSpaceNoop(t);
  }

  lemma DigitNotSpace(c: char)
    requires IsDigit(c)
    ensures !IsSpace(c)
  {
  }

  /** A term starts and ends with a digit. */
  lemma TermEnds(t: string)
    requires IsTerm(t)
    ensures t != [] && IsDigit(t[0]) && IsDigit(t[|t| - 1])
  {
    var c, d := TermSides(t);
    if '-' in t {
      assert t[0] == c[0];
      assert t[|t| - 1] == d[|d| - 1];
    }
  }

  /** The one or two numbers of a term. */
  lemma TermSides(t: string) returns (c: string, d: string)
    requires IsTerm(t)
    ensures IsDigits(c)
    ensures '-' in t ==> IsDigits(d) && t == c + "-" + d
    ensures '-' !in t ==> t == c
  {
    var sides := Split(t, '-');
    assert IsDigits(sides[0]);
    if '-' in t {
      c, d := CutAtFirst(t, '-');
      assert sides[1..] == Split(d, '-');
      assert Split(d, '-') == [d];
      assert IsDigits(sides[1]);
    } else {
      c, d := t, "";
    }
  }

  /** Trimming a clause whose `\s`-stripped form is a term gives that term. */
  lemma {:induction false} TrimSpacedTerm(w: string)
    requires IsTerm(DropRegexSpaces(w))
    ensures TrimSpace(w) == DropRegexSpaces(w)
  {
    var t := DropRegexSpaces(w);
    TermEnds(t);
    if w != [] && IsRegexSpace(w[0]) {
      TrimSpacedTerm(w[1..]);
      assert TrimLeft(w) == TrimLeft(w[1..]);
    } else {
      TrimSpaceNoop(w);
    }
  }

  /** A term, as a clause, either selects pages or names a page outside the document. */
  lemma TermClause(t: string, totalPages: nat)
    requires IsTerm(t)
    ensures ClausePages(t, totalPages).Ok? || ClausePages(t, totalPages).error.IsBoundsError()
  {
    var c, d := TermSides(t);
    if '-' in t {
      SpanClause(c, d, totalPages);
    }
  }

  /** Clauses that each select pages or fail on bounds select pages or fail on bounds together. */
  lemma {:induction false} SelectionOkOrBounds(parts: seq<string>, totalPages: nat)
    requires forall i :: 0 <= i < |parts| && TrimSpace(parts[i]) != "" ==>
               ClausePages(TrimSpace(parts[i]), totalPages).Ok? ||
               ClausePages(TrimSpace(parts[i]), totalPages).error.IsBoundsError()
    ensures Selection(parts, totalPages).Ok? || Selection(parts, totalPages).error.IsBoundsError()
  {
    if parts != [] {
      var init := parts[..|parts| - 1];
      assert forall i :: 0 <= i < |init| ==> init[i] == parts[i];
      SelectionOkOrBounds(init, totalPages);
    }
  }

  /**
   * The two checks differ: `strconv.Atoi` takes a sign, the pattern does not;
   * so "+5" is refused by the check yet resolves to page 5.
   */
  lemma SignedPageExample()
    ensures ValidatePageRange("+5").Some? && PageRange("+5", 5) == Ok([5])
  {
    SignedPageRefused();
    SignedPageResolves();
  }

  lemma SignedPageRefused()
    ensures ValidatePageRange("+5").Some?
  {
    var e := "+5";
    assert ToLower(e) == e;
    TrimSpaceNoop(e);
    assert Run(e, Start) == Dead by {
      assert Run(e, Start) == Run(e[1..], Dead);
      DeadStays(e[1..]);
    }
  }

  lemma SignedPageResolves()
    ensures PageRange("+5", 5) == Ok([5])
  {
    SignedClauseShape();
    SignedFive();
    SingleClause("+5", 5, {5});
    ListedSingle(5, 5);
  }

  lemma SignedClauseShape()
    ensures Normalize("+5") == "+5" && !SelectsAll("+5") && ',' !in "+5" && TrimSpace("+5") == "+5"
  {
    assert ToLower("+5") == "+5";
    TrimSpaceNoop("+5");
  }

  /** A single page in range is listed on its own. */
  lemma ListedSingle(p: int, totalPages: nat)
    requires 1 <= p <= totalPages
    ensures Listed(Ok({p}), totalPages) == Ok([p])
  {
    AscendingOfSorted({p}, 1, totalPages, [p]);
  }

  lemma SignedFive()
    ensures ClausePages("+5", 5) == Ok({5})
  {
    assert "+5"[1..] == "5" && "5"[..0] == [];
    assert Atoi("+5") == Some(5);
    assert '-' !in "+5";
  }

  /**
   * The pattern allows no space before a comma, while the resolver trims
   * every clause; so "1 ,2" is refused by the check yet resolves to [1, 2].
   */
  lemma SpaceBeforeCommaExample()
    ensures ValidatePageRange("1 ,2").Some? && PageRange("1 ,2", 5) == Ok([1, 2])
  {
    SpaceBeforeCommaRefused();
    SpaceBeforeCommaResolves();
  }

  lemma SpaceBeforeCommaRefused()
    ensures ValidatePageRange("1 ,2").Some?
  {
    var e := "1 ,2";
    assert ToLower(e) == e;
    TrimSpaceNoop(e);
    assert Run(e, Start) == Dead by {
      assert Run(e, Start) == Run(e[1..], InFirst) == Run(e[2..], Dead);
      DeadStays(e[2..]);
    }
  }

  lemma SpaceBeforeCommaResolves()
    ensures PageRange("1 ,2", 5) == Ok([1, 2])
  {
    SpaceBeforeCommaClauses();
    SpaceBeforeCommaSelection();
    PageRangeOfClauses("1 ,2", 5);
    ListedPair(1, 2, 5);
  }

  /** Two pages in range are listed in ascending order. */
  lemma ListedPair(p: int, q: int, totalPages: nat)
    requires 1 <= p < q <= totalPages
    ensures Listed(Ok({p, q}), totalPages) == Ok([p, q])
  {
    AscendingOfSorted({p, q}, 1, totalPages, [p, q]);
  }

  lemma SpaceBeforeCommaClauses()
    ensures Normalize("1 ,2") == "1 ,2" && Split("1 ,2", ',') == ["1 ", "2"]
  {
    var e := "1 ,2";
    assert ToLower(e) == e;
    TrimSpaceNoop(e);
    assert e == "1 " + [','] + "2";
    SplitTwo("1 ", "2", ',');
  }

  lemma SplitTwo(first: string, second: string, sep: char)
    requires sep !in first && sep !in second
    ensures Split(first + [sep] + second, sep) == [first, second]
  {
    SplitConcat(first, second, sep);
  }

  lemma SpaceBeforeCommaSelection()
    ensures Selection(["1 ", "2"], 5) == Ok({1, 2})
  {
    var first, second := "1 ", "2";
    var parts := [first, second];
    assert TrimSpace(first) == "1" by {
      assert TrimLeft(first) == first;
      assert first[..1] == "1";
      TrimSpaceNoop("1");
    }
    TrimSpaceNoop(second);
    SmallPage("1", 1, 5);
    SmallPage("2", 2, 5);
    assert parts[..1] == [first] && [first][..0] == [];
    assert Selection([first], 5) == Ok({} + {1});
    SelectionExtend(parts, 1, 5);
    assert parts[..2] == parts;
    assert {} + {1} + {2} == {1, 2};
  }

  /** A one-digit clause selects that page. */
  lemma SmallPage(d: string, page: nat, totalPages: nat)
    requires |d| == 1 && IsDigit(d[0]) && DigitValue(d[0]) == page && 1 <= page <= totalPages
    ensures ClausePages(d, totalPages) == Ok({page})
  {
    assert d[..0] == [];
    assert '-' !in d && IsDigits(d);
    assert DecimalValue(d) == page;
  }

  /** An expression that is one untrimmed clause selecting `pages`. */
  lemma SingleClause(s: string, totalPages: nat, pages: set<int>)
    requires Normalize(s) == s && !SelectsAll(s) && ',' !in s && TrimSpace(s) == s
    requires ClausePages(s, totalPages) == Ok(pages)
    ensures PageRange(s, totalPages) == Listed(Ok(pages), totalPages)
  {
    PageRangeOfClauses(s, totalPages);
    assert Split(s, ',') == [s];
    assert [s][..0] == [];
    assert Selection([s], totalPages) == Ok({} + pages);
    assert {} + pages == pages;
  }
}
