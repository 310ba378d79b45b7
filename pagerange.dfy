/**
 * Page selection: `parsePageRange` of converter/converter.go.
 *
 * The functions below specify what a page expression such as "all", "3",
 * "5-1" or "1,3,5-7" selects from a document of `totalPages` pages; the
 * method `ParsePageRange` is the Go routine itself (a loop over the clauses
 * that marks pages in a set, then a pass that lists the marked pages in
 * ascending order) and is proved to compute exactly `PageRange`.
 */
module PageSelection {
  import opened Wrappers
  import opened GoStrings

  /** The errors `parsePageRange` returns, one per `fmt.Errorf` in it. */
  datatype RangeError =
    | InvalidRangeFormat(part: string)               // a clause with more than one '-'
    | InvalidPageNumber(token: string)               // a side or single clause that is not an integer
    | SpanOutOfRange(totalPages: int, part: string)  // a side of an A-B clause outside [1, totalPages]
    | PageOutOfRange(totalPages: int, page: int)     // a single page outside [1, totalPages]
    | NoValidPages                                   // the clauses select nothing
  {
    /** Failures that only the page count decides; the syntax check cannot see them. */
    predicate IsBoundsError() {
      SpanOutOfRange? || PageOutOfRange?
    }
  }

  /** The expression as the parser reads it: lower-cased, then trimmed. */
  function Normalize(rangeStr: string): (r: string)
    ensures forall i :: 0 <= i < |r| ==> !('A' <= r[i] <= 'Z')
    ensures r == [] || (!IsSpace(r[0]) && !IsSpace(r[|r| - 1]))
  {
    var lowered := ToLower(rangeStr);
    TrimSpaceBetween(lowered);
    TrimSpace(lowered)
  }

  /** Normalizing twice is normalizing once. */
  lemma NormalizeIdempotent(rangeStr: string)
    ensures Normalize(Normalize(rangeStr)) == Normalize(rangeStr)
  {
    var s := Normalize(rangeStr);
    ToLowerNoUpper(s);
    TrimSpaceNoop(s);
  }

  /** The two spellings that mean "every page". */
  predicate SelectsAll(s: string) {
    s == "" || s == "all"
  }

  predicate StrictlyAscending(s: seq<int>) {
    forall i, j :: 0 <= i < j < |s| ==> s[i] < s[j]
  }

  /** The pages from `lo` to `hi` inclusive. */
  function Interval(lo: int, hi: int): (r: set<int>)
    ensures forall p :: p in r <==> lo <= p <= hi
    decreases hi - lo
  {
    if hi < lo then {} else Interval(lo, hi - 1) + {hi}
  }

  /** The pages an A-B clause covers, whichever side is larger. */
  function Span(a: int, b: int): (r: set<int>)
    ensures forall p :: p in r <==> (a <= p <= b || b <= p <= a)
  {
    if a <= b then Interval(a, b) else Interval(b, a)
  }

  /**
   * What one non-empty, trimmed clause selects: an A-B span (sides trimmed,
   * parsed by Atoi, both within bounds) or a single page number.
   */
  function ClausePages(part: string, totalPages: nat): (r: Result<set<int>, RangeError>)
    ensures r.Ok? ==> r.value != {} && forall p :: p in r.value ==> 1 <= p <= totalPages
    ensures r.Err? ==> !r.error.NoValidPages?
  {
    if '-' in part then
      var sides := Split(part, '-');
      if |sides| != 2 then Err(InvalidRangeFormat(part))
      else
        var start := Atoi(TrimSpace(sides[0]));
        var end := Atoi(TrimSpace(sides[1]));
        if start.None? then Err(InvalidPageNumber(sides[0]))
        else if end.None? then Err(InvalidPageNumber(sides[1]))
        else if start.value < 1 || end.value < 1 || start.value > totalPages || end.value > totalPages then
          Err(SpanOutOfRange(totalPages, part))
        else
          assert start.value in Span(start.value, end.value);
          Ok(Span(start.value, end.value))
    else
      var page := Atoi(part);
      if page.None? then Err(InvalidPageNumber(part))
      else if page.value < 1 || page.value > totalPages then Err(PageOutOfRange(totalPages, page.value))
      else Ok({page.value})
  }

  /**
   * The pages a list of comma-separated clauses selects, clause by clause:
   * blank clauses are skipped and the first failing clause decides the error.
   */
  function Selection(parts: seq<string>, totalPages: nat): (r: Result<set<int>, RangeError>)
    ensures r.Ok? ==> forall p :: p in r.value ==> 1 <= p <= totalPages
    ensures r.Err? ==> !r.error.NoValidPages?
  {
    if parts == [] then Ok({})
    else
      match Selection(parts[..|parts| - 1], totalPages)
      case Err(e) => Err(e)
      case Ok(earlier) =>
        var part := TrimSpace(parts[|parts| - 1]);
        if part == "" then Ok(earlier)
        else
          match ClausePages(part, totalPages)
          case Err(e) => Err(e)
          case Ok(pages) => Ok(earlier + pages)
  }

  /** The members of `pages` between `lo` and `hi`, in ascending order. */
  function Ascending(pages: set<int>, lo: int, hi: int): (r: seq<int>)
    ensures StrictlyAscending(r)
    ensures forall i :: 0 <= i < |r| ==> lo <= r[i] <= hi
    ensures forall p :: p in r <==> p in pages && lo <= p <= hi
    decreases hi - lo
  {
    if hi < lo then []
    else
      var below := Ascending(pages, lo, hi - 1);
      if hi in pages then below + [hi] else below
  }

  /**
   * The page list `parsePageRange(rangeStr, totalPages)` returns, or its error.
   */
  function PageRange(rangeStr: string, totalPages: nat): (r: Result<seq<int>, RangeError>)
    ensures r.Ok? ==> StrictlyAscending(r.value)
    ensures r.Ok? ==> forall i :: 0 <= i < |r.value| ==> 1 <= r.value[i] <= totalPages
    ensures SelectsAll(Normalize(rangeStr)) ==>
              r.Ok? && |r.value| == totalPages && forall i :: 0 <= i < totalPages ==> r.value[i] == i + 1
    ensures !SelectsAll(Normalize(rangeStr)) && r.Ok? ==> |r.value| > 0
  {
    var s := Normalize(rangeStr);
    if SelectsAll(s) then Ok(seq(totalPages, i => i + 1))
    else Listed(Selection(Split(s, ','), totalPages), totalPages)
  }

  /** The selected pages in ascending order; an empty selection is an error. */
  function Listed(selection: Result<set<int>, RangeError>, totalPages: nat): (r: Result<seq<int>, RangeError>)
    ensures selection.Err? ==> r == Err(selection.error)
    ensures selection.Ok? && r.Ok? ==>
              r.value != [] && StrictlyAscending(r.value) &&
              (forall p :: p in r.value <==> p in selection.value && 1 <= p <= totalPages)
    ensures selection.Ok? ==> (r == Err(NoValidPages) <==> forall p :: p in selection.value ==> !(1 <= p <= totalPages))
    ensures selection.Ok? ==> r.Ok? || r == Err(NoValidPages)
  {
    match selection
    case Err(e) => Err(e)
    case Ok(selected) =>
      var pages := Ascending(selected, 1, totalPages);
      if pages == [] then Err(NoValidPages)
      else
        assert pages[0] in selected;
        Ok(pages)
  }

  /**
   * `parsePageRange`: "" or "all" fills the list 1..totalPages; otherwise
   * every clause marks its pages in `pageSet`, and the marked pages are then
   * listed in ascending order.
   */
  method ParsePageRange(rangeStr: string, totalPages: nat) returns (r: Result<seq<int>, RangeError>)
    ensures r == PageRange(rangeStr, totalPages)
  {
    var s := TrimSpace(ToLower(rangeStr));
    if s == "" || s == "all" {
      var pages := AllPages(totalPages);
      return Ok(pages);
    }

    // pageSet[p] for 1 <= p <= totalPages; no clause marks a page out of bounds
    var pageSet := new bool[totalPages + 1](_ => false);
    ghost var selected: set<int> := {};
    var parts := Split(s, ',');
    for k := 0 to |parts|
      invariant Selection(parts[..k], totalPages) == Ok(selected)
      invariant forall p :: 1 <= p <= totalPages ==> (pageSet[p] <==> p in selected)
    {
      SelectionExtend(parts, k, totalPages);
      var part := TrimSpace(parts[k]);
      if part == "" {
        continue;
      }
      var failure := MarkClause(pageSet, part, totalPages);
      if failure.Some? {
        r := Err(failure.value);
        SelectionErrorPersists(parts, k + 1, totalPages);
        return;
      }
      selected := selected + ClausePages(part, totalPages).value;
    }
    assert parts[..|parts|] == parts;

    var pages := ListMarked(pageSet, totalPages, selected);
    if |pages| == 0 {
      return Err(NoValidPages);
    }
    return Ok(pages);
  }

  /** The pages 1..totalPages, written into a fresh array one by one. */
  method AllPages(totalPages: nat) returns (pages: seq<int>)
    ensures pages == seq(totalPages, i => i + 1)
  {
    var a := new int[totalPages];
    for i := 0 to totalPages
      invariant forall j :: 0 <= j < i ==> a[j] == j + 1
    {
      a[i] := i + 1;
    }
    pages := a[..];
  }

  /** The marked pages of `pageSet`, in ascending order. */
  method ListMarked(pageSet: array<bool>, totalPages: nat, ghost selected: set<int>) returns (pages: seq<int>)
    requires pageSet.Length == totalPages + 1
    requires forall p :: 1 <= p <= totalPages ==> (pageSet[p] <==> p in selected)
    ensures pages == Ascending(selected, 1, totalPages)
  {
    pages := [];
    for p := 1 to totalPages + 1
      invariant pages == Ascending(selected, 1, p - 1)
    {
      if pageSet[p] {
        pages := pages + [p];
      }
    }
  }

  /**
   * The body of `parsePageRange`'s clause loop for one non-empty clause:
   * marks the clause's pages in `pageSet`, or reports the clause's error
   * and marks nothing.
   */
  method MarkClause(pageSet: array<bool>, part: string, totalPages: nat) returns (failure: Option<RangeError>)
    requires pageSet.Length == totalPages + 1
    modifies pageSet
    ensures ClausePages(part, totalPages).Err? ==>
              failure == Some(ClausePages(part, totalPages).error) && pageSet[..] == old(pageSet[..])
    ensures ClausePages(part, totalPages).Ok? ==>
              failure == None &&
              forall p :: 0 <= p < pageSet.Length ==>
                pageSet[p] == (old(pageSet[p]) || p in ClausePages(part, totalPages).value)
  {
    if '-' in part {
      var rangeParts := Split(part, '-');
      if |rangeParts| != 2 {
        return Some(InvalidRangeFormat(part));
      }
      var start := Atoi(TrimSpace(rangeParts[0]));
      if start.None? {
        return Some(InvalidPageNumber(rangeParts[0]));
      }
      var end := Atoi(TrimSpace(rangeParts[1]));
      if end.None? {
        return Some(InvalidPageNumber(rangeParts[1]));
      }
      var first, last := start.value, end.value;
      if first < 1 || last < 1 || first > totalPages || last > totalPages {
        return Some(SpanOutOfRange(totalPages, part));
      }
      if first > last {
        first, last := last, first;
      }
      for i := first to last + 1
        invariant forall p :: 0 <= p < pageSet.Length ==> pageSet[p] == (old(pageSet[p]) || first <= p < i)
      {
        pageSet[i] := true;
      }
      return None;
    } else {
      var page := Atoi(part);
      if page.None? {
        return Some(InvalidPageNumber(part));
      }
      if page.value < 1 || page.value > totalPages {
        return Some(PageOutOfRange(totalPages, page.value));
      }
      pageSet[page.value] := true;
      return None;
    }
  }

  // -----------------------------------------------------------------------
  // Clause lists

  /** One more clause: how the selection of a prefix grows by the next clause. */
  lemma SelectionExtend(parts: seq<string>, k: nat, totalPages: nat)
    requires k < |parts|
    ensures var part := TrimSpace(parts[k]);
      Selection(parts[..k + 1], totalPages) ==
        match Selection(parts[..k], totalPages)
        case Err(e) => Err(e)
        case Ok(earlier) =>
          if part == "" then Ok(earlier)
          else
            match ClausePages(part, totalPages)
            case Err(e) => Err(e)
            case Ok(pages) => Ok(earlier + pages)
  {
    assert parts[..k + 1][..k] == parts[..k];
  }

  /** Once a prefix of the clauses has failed, later clauses are never looked at. */
  lemma {:induction false} SelectionErrorPersists(parts: seq<string>, n: nat, totalPages: nat)
    requires n <= |parts|
    requires Selection(parts[..n], totalPages).Err?
    ensures Selection(parts, totalPages) == Selection(parts[..n], totalPages)
    decreases |parts| - n
  {
    if n < |parts| {
      var init := parts[..|parts| - 1];
      assert init[..n] == parts[..n];
      SelectionErrorPersists(init, n, totalPages);
    } else {
      assert parts[..n] == parts;
    }
  }

  /** The selection of two clause lists read one after the other. */
  function Combine(first: Result<set<int>, RangeError>, second: Result<set<int>, RangeError>): Result<set<int>, RangeError> {
    match first
    case Err(e) => Err(e)
    case Ok(a) =>
      match second
      case Err(e) => Err(e)
      case Ok(b) => Ok(a + b)
  }

  /** Reading `a` then `b`: the first error wins, otherwise the selections are united. */
  lemma {:induction false} SelectionConcat(a: seq<string>, b: seq<string>, totalPages: nat)
    ensures Selection(a + b, totalPages) == Combine(Selection(a, totalPages), Selection(b, totalPages))
    decreases |b|
  {
    if b == [] {
      assert a + b == a;
      if Selection(a, totalPages).Ok? {
        assert Selection(a, totalPages).value + {} == Selection(a, totalPages).value;
      }
    } else {
      var init := b[..|b| - 1];
      assert (a + b)[..|a + b| - 1] == a + init;
      assert (a + b)[|a + b| - 1] == b[|b| - 1];
      SelectionConcat(a, init, totalPages);
      var part := TrimSpace(b[|b| - 1]);
      if Selection(a, totalPages).Ok? && Selection(init, totalPages).Ok? && part != "" && ClausePages(part, totalPages).Ok? {
        var x, y, z := Selection(a, totalPages).value, Selection(init, totalPages).value, ClausePages(part, totalPages).value;
        assert x + y + z == x + (y + z);
      }
    }
  }

  /** Clause lists that both succeed select the same pages in either order. */
  lemma SelectionReorder(a: seq<string>, b: seq<string>, totalPages: nat)
    requires Selection(a, totalPages).Ok? && Selection(b, totalPages).Ok?
    ensures Selection(a + b, totalPages) == Selection(b + a, totalPages)
    ensures Selection(a + b, totalPages) == Ok(Selection(a, totalPages).value + Selection(b, totalPages).value)
  {
    SelectionConcat(a, b, totalPages);
    SelectionConcat(b, a, totalPages);
    var x, y := Selection(a, totalPages).value, Selection(b, totalPages).value;
    assert x + y == y + x;
  }

  /** Repeating a clause list changes neither its pages nor its error. */
  lemma SelectionRepeat(a: seq<string>, totalPages: nat)
    ensures Selection(a + a, totalPages) == Selection(a, totalPages)
  {
    SelectionConcat(a, a, totalPages);
    if Selection(a, totalPages).Ok? {
      var x := Selection(a, totalPages).value;
      assert x + x == x;
    }
  }

  /**
   * A successful selection is exactly the union of what its non-blank
   * clauses select, each of which succeeds.
   */
  lemma SelectionIsUnion(parts: seq<string>, totalPages: nat)
    requires Selection(parts, totalPages).Ok?
    ensures forall i :: 0 <= i < |parts| && TrimSpace(parts[i]) != "" ==>
              ClausePages(TrimSpace(parts[i]), totalPages).Ok? &&
              ClausePages(TrimSpace(parts[i]), totalPages).value <= Selection(parts, totalPages).value
    ensures forall p :: p in Selection(parts, totalPages).value ==>
              exists i :: 0 <= i < |parts| && TrimSpace(parts[i]) != "" &&
                ClausePages(TrimSpace(parts[i]), totalPages).Ok? &&
                p in ClausePages(TrimSpace(parts[i]), totalPages).value
  {
    SelectionCoversClauses(parts, totalPages);
    SelectionWithinClauses(parts, totalPages);
  }

  lemma {:induction false} SelectionCoversClauses(parts: seq<string>, totalPages: nat)
    requires Selection(parts, totalPages).Ok?
    ensures forall i :: 0 <= i < |parts| && TrimSpace(parts[i]) != "" ==>
              ClausePages(TrimSpace(parts[i]), totalPages).Ok? &&
              ClausePages(TrimSpace(parts[i]), totalPages).value <= Selection(parts, totalPages).value
  {
    if parts != [] {
      var n := |parts|;
      var init := parts[..n - 1];
      SelectionCoversClauses(init, totalPages);
      var all := Selection(parts, totalPages).value;
      assert Selection(init, totalPages).value <= all;
      forall i | 0 <= i < n && TrimSpace(parts[i]) != ""
        ensures ClausePages(TrimSpace(parts[i]), totalPages).Ok?
        ensures ClausePages(TrimSpace(parts[i]), totalPages).value <= all
      {
        if i < n - 1 {
          assert parts[i] == init[i];
        }
      }
    }
  }

  lemma {:induction false} SelectionWithinClauses(parts: seq<string>, totalPages: nat)
    requires Selection(parts, totalPages).Ok?
    ensures forall p :: p in Selection(parts, totalPages).value ==>
              exists i :: 0 <= i < |parts| && TrimSpace(parts[i]) != "" &&
                ClausePages(TrimSpace(parts[i]), totalPages).Ok? &&
                p in ClausePages(TrimSpace(parts[i]), totalPages).value
  {
    if parts != [] {
      var n := |parts|;
      var init := parts[..n - 1];
      SelectionWithinClauses(init, totalPages);
      var earlier := Selection(init, totalPages).value;
      forall p | p in Selection(parts, totalPages).value
        ensures exists i :: 0 <= i < n && TrimSpace(parts[i]) != "" &&
                  ClausePages(TrimSpace(parts[i]), totalPages).Ok? &&
                  p in ClausePages(TrimSpace(parts[i]), totalPages).value
      {
        if p in earlier {
          var i :| 0 <= i < n - 1 && TrimSpace(init[i]) != "" &&
                   ClausePages(TrimSpace(init[i]), totalPages).Ok? &&
                   p in ClausePages(TrimSpace(init[i]), totalPages).value;
          assert parts[i] == init[i];
        } else {
          assert TrimSpace(parts[n - 1]) != "" && p in ClausePages(TrimSpace(parts[n - 1]), totalPages).value;
        }
      }
    }
  }

  /**
   * A failed selection reports the error of its first failing clause; every
   * non-blank clause before that one succeeds.
   */
  lemma {:induction false} SelectionFailsAtFirstBadClause(parts: seq<string>, totalPages: nat)
    requires Selection(parts, totalPages).Err?
    ensures exists i :: 0 <= i < |parts| && TrimSpace(parts[i]) != "" &&
              ClausePages(TrimSpace(parts[i]), totalPages) == Err(Selection(parts, totalPages).error) &&
              forall j :: 0 <= j < i && TrimSpace(parts[j]) != "" ==> ClausePages(TrimSpace(parts[j]), totalPages).Ok?
  {
    var n := |parts|;
    var init := parts[..n - 1];
    forall j | 0 <= j < n - 1
      ensures parts[j] == init[j]
    {
    }
    if Selection(init, totalPages).Err? {
      SelectionFailsAtFirstBadClause(init, totalPages);
      var i :| 0 <= i < n - 1 && TrimSpace(init[i]) != "" &&
               ClausePages(TrimSpace(init[i]), totalPages) == Err(Selection(init, totalPages).error) &&
               forall j :: 0 <= j < i && TrimSpace(init[j]) != "" ==> ClausePages(TrimSpace(init[j]), totalPages).Ok?;
      assert parts[i] == init[i];
    } else {
      SelectionIsUnion(init, totalPages);
      assert TrimSpace(parts[n - 1]) != "" &&
             ClausePages(TrimSpace(parts[n - 1]), totalPages) == Err(Selection(parts, totalPages).error);
    }
  }

  /** A clause list succeeds exactly when every non-blank clause in it does. */
  lemma SelectionSucceedsIff(parts: seq<string>, totalPages: nat)
    ensures Selection(parts, totalPages).Ok? <==>
              forall i :: 0 <= i < |parts| && TrimSpace(parts[i]) != "" ==>
                ClausePages(TrimSpace(parts[i]), totalPages).Ok?
  {
    if Selection(parts, totalPages).Ok? {
      SelectionIsUnion(parts, totalPages);
    } else {
      SelectionFailsAtFirstBadClause(parts, totalPages);
    }
  }

  // -----------------------------------------------------------------------
  // Clauses

  /**
   * "A-B" and "B-A" succeed or fail together, select the same pages, namely
   * every page from the smaller to the larger number, and fail only for
   * bounds.
   */
  lemma SpanOrderInsensitive(a: string, b: string, totalPages: nat)
    requires IsDigits(a) && IsDigits(b)
    ensures ClausePages(a + "-" + b, totalPages).Ok? <==> ClausePages(b + "-" + a, totalPages).Ok?
    ensures ClausePages(a + "-" + b, totalPages).Ok? ==>
              var x, y := DecimalValue(a), DecimalValue(b);
              ClausePages(a + "-" + b, totalPages).value == ClausePages(b + "-" + a, totalPages).value ==
              Interval(if x <= y then x else y, if x <= y then y else x)
    ensures ClausePages(a + "-" + b, totalPages).Err? ==>
              ClausePages(a + "-" + b, totalPages).error == SpanOutOfRange(totalPages, a + "-" + b)
  {
    SpanClause(a, b, totalPages);
    SpanClause(b, a, totalPages);
  }

  lemma SpanClause(a: string, b: string, totalPages: nat)
    requires IsDigits(a) && IsDigits(b)
    ensures var x, y := DecimalValue(a), DecimalValue(b);
      ClausePages(a + "-" + b, totalPages) ==
        if x < 1 || y < 1 || x > totalPages || y > totalPages then Err(SpanOutOfRange(totalPages, a + "-" + b))
        else Ok(Span(x, y))
  {
    DigitsHaveNoSeparator(a);
    DigitsHaveNoSeparator(b);
    SplitConcat(a, b, '-');
    assert a + "-" + b == a + ['-'] + b;
    assert (a + "-" + b)[|a|] == '-';
    TrimSpaceNoop(a);
    TrimSpaceNoop(b);
  }

  /** Digits are neither separators nor white space. */
  /**
   * A hyphen-free clause of decimal digits selects that one page, or fails
   * with "page N out of range" outside [1, totalPages].
   */
  lemma NumberClause(d: string, totalPages: nat)
    requires IsDigits(d)
    ensures var v := DecimalValue(d);
      ClausePages(d, totalPages) ==
        if v < 1 || v > totalPages then Err(PageOutOfRange(totalPages, v)) else Ok({v})
  {
    DigitsHaveNoSeparator(d);
  }

  /**
   * A hyphen-free clause that is not an optionally '+'-signed run of digits,
   * such as "x" or "1a", is "invalid page number".
   */
  lemma NonNumericClause(part: string, totalPages: nat)
    requires '-' !in part
    requires part == "+" || exists i :: 0 <= i < |part| && !IsDigit(part[i]) && !(i == 0 && part[i] == '+')
    ensures ClausePages(part, totalPages) == Err(InvalidPageNumber(part))
  {
    UnsignedAtoiShape(part);
  }

  /** A hyphen-free text Atoi reads is digits, with at most a leading '+'. */
  lemma UnsignedAtoiShape(part: string)
    ensures '-' !in part && Atoi(part).Some? ==>
      part != "+" && forall i :: 0 <= i < |part| ==> IsDigit(part[i]) || (i == 0 && part[i] == '+')
  {
    if part != [] && part[0] == '+' {
      assert forall j :: 1 <= j < |part| ==> part[j] == part[1..][j - 1];
    }
  }

  /** A clause with more than one '-', such as "1-2-3", is "invalid range format". */
  lemma ExtraHyphens(a: string, b: string, c: string, totalPages: nat)
    ensures var part := a + "-" + b + "-" + c;
      ClausePages(part, totalPages) == Err(InvalidRangeFormat(part))
  {
    var part := a + "-" + b + "-" + c;
    assert part == a + ['-'] + (b + ['-'] + c);
    assert part[|a|] == '-';
    SplitConcat(a, b + ['-'] + c, '-');
    SplitConcat(b, c, '-');
  }

  /**
   * An A-B clause with hyphen-free sides: a side whose trimmed text is not
   * an integer is "invalid page number" (the first side first); two
   * integers then fail on bounds or select every page between them.
   */
  lemma HyphenClause(a: string, b: string, totalPages: nat)
    requires '-' !in a && '-' !in b
    ensures var start, end := Atoi(TrimSpace(a)), Atoi(TrimSpace(b));
      ClausePages(a + "-" + b, totalPages) ==
        if start.None? then Err(InvalidPageNumber(a))
        else if end.None? then Err(InvalidPageNumber(b))
        else if start.value < 1 || end.value < 1 || start.value > totalPages || end.value > totalPages then
          Err(SpanOutOfRange(totalPages, a + "-" + b))
        else Ok(Span(start.value, end.value))
  {
    assert a + "-" + b == a + ['-'] + b;
    assert (a + "-" + b)[|a|] == '-';
    SplitConcat(a, b, '-');
  }

  lemma DigitsHaveNoSeparator(d: string)
    requires AllDigits(d)
    ensures '-' !in d && ',' !in d
    ensures d != [] ==> !IsSpace(d[0]) && !IsSpace(d[|d| - 1])
  {
  }

  // -----------------------------------------------------------------------
  // Whole expressions

  /**
   * "no valid pages specified" is returned exactly for expressions other
   * than ""/"all" whose every comma-separated clause is blank, such as ",".
   */
  lemma NoValidPagesExactly(rangeStr: string, totalPages: nat)
    ensures var s := Normalize(rangeStr);
      PageRange(rangeStr, totalPages) == Err(NoValidPages) <==>
        !SelectsAll(s) && forall i :: 0 <= i < |Split(s, ',')| ==> TrimSpace(Split(s, ',')[i]) == ""
  {
    var s := Normalize(rangeStr);
    if !SelectsAll(s) {
      var parts := Split(s, ',');
      PageRangeOfClauses(rangeStr, totalPages);
      if forall i :: 0 <= i < |parts| ==> TrimSpace(parts[i]) == "" {
        BlankClausesSelectNothing(parts, totalPages);
        AscendingOfNothing(1, totalPages);
      } else {
        var i :| 0 <= i < |parts| && TrimSpace(parts[i]) != "";
        if Selection(parts, totalPages).Ok? {
          NonBlankClauseSelects(parts, totalPages, i);
          var p :| p in Selection(parts, totalPages).value;
          assert p in Ascending(Selection(parts, totalPages).value, 1, totalPages);
        }
      }
    }
  }

  /** Outside ""/"all", the result is the clause selection listed in ascending order. */
  lemma PageRangeOfClauses(rangeStr: string, totalPages: nat)
    requires !SelectsAll(Normalize(rangeStr))
    ensures PageRange(rangeStr, totalPages) == Listed(Selection(Split(Normalize(rangeStr), ','), totalPages), totalPages)
  {
  }

  /**
   * Outside ""/"all", the expression fails with the error of its first
   * non-blank clause that fails.
   */
  lemma PageRangeFailsAtFirstBadClause(rangeStr: string, totalPages: nat, k: nat)
    requires !SelectsAll(Normalize(rangeStr))
    requires var parts := Split(Normalize(rangeStr), ',');
      k < |parts| && TrimSpace(parts[k]) != "" && ClausePages(TrimSpace(parts[k]), totalPages).Err? &&
      forall j :: 0 <= j < k && TrimSpace(parts[j]) != "" ==> ClausePages(TrimSpace(parts[j]), totalPages).Ok?
    ensures var parts := Split(Normalize(rangeStr), ',');
      PageRange(rangeStr, totalPages) == Err(ClausePages(TrimSpace(parts[k]), totalPages).error)
  {
    var parts := Split(Normalize(rangeStr), ',');
    SelectionSucceedsIff(parts, totalPages);
    SelectionFailsAtFirstBadClause(parts, totalPages);
    var i :| 0 <= i < |parts| && TrimSpace(parts[i]) != "" &&
             ClausePages(TrimSpace(parts[i]), totalPages) == Err(Selection(parts, totalPages).error) &&
             forall j :: 0 <= j < i && TrimSpace(parts[j]) != "" ==> ClausePages(TrimSpace(parts[j]), totalPages).Ok?;
    assert i == k;
    PageRangeOfClauses(rangeStr, totalPages);
  }

  /** "1-5" over a 3-page document fails: the span runs past the last page. */
  lemma SpanPastEndFails()
    ensures PageRange("1-5", 3) == Err(SpanOutOfRange(3, "1-5"))
  {
    OneClauseShape("1-5");
    assert "1" + "-" + "5" == "1-5";
    SpanClause("1", "5", 3);
    PageRangeFailsAtFirstBadClause("1-5", 3, 0);
  }

  /** "7" over a 5-page document fails with "page 7 out of range". */
  lemma PagePastEndFails()
    ensures PageRange("7", 5) == Err(PageOutOfRange(5, 7))
  {
    OneClauseShape("7");
    NumberClause("7", 5);
    PageRangeFailsAtFirstBadClause("7", 5, 0);
  }

  /** A trimmed, lower-case, comma-free clause is its own single clause. */
  lemma OneClauseShape(s: string)
    requires |s| > 0 && ',' !in s && !SelectsAll(s)
    requires forall i :: 0 <= i < |s| ==> IsDigit(s[i]) || s[i] == '-'
    requires IsDigit(s[0]) && IsDigit(s[|s| - 1])
    ensures Normalize(s) == s && Split(Normalize(s), ',') == [s] && TrimSpace(s) == s
  {
    ToLowerNoUpper(s);
    assert !IsSpace(s[0]) && !IsSpace(s[|s| - 1]);
    TrimSpaceNoop(s);
  }

  /** Blank clauses select nothing and never fail. */
  lemma {:induction false} BlankClausesSelectNothing(parts: seq<string>, totalPages: nat)
    requires forall i :: 0 <= i < |parts| ==> TrimSpace(parts[i]) == ""
    ensures Selection(parts, totalPages) == Ok({})
  {
    if parts != [] {
      BlankClausesSelectNothing(parts[..|parts| - 1], totalPages);
    }
  }

  /** A successful selection with a non-blank clause is not empty. */
  lemma NonBlankClauseSelects(parts: seq<string>, totalPages: nat, i: nat)
    requires i < |parts| && TrimSpace(parts[i]) != ""
    requires Selection(parts, totalPages).Ok?
    ensures Selection(parts, totalPages).value != {}
  {
    SelectionCoversClauses(parts, totalPages);
    var p :| p in ClausePages(TrimSpace(parts[i]), totalPages).value;
  }

  /** The decimal forms of a list of page numbers. */
  function ShowPages(pages: seq<int>): (r: seq<string>)
    requires forall i :: 0 <= i < |pages| ==> pages[i] >= 0
    ensures |r| == |pages| && forall i :: 0 <= i < |r| ==> IsDigits(r[i])
  {
    seq(|pages|, i requires 0 <= i < |pages| => Show(pages[i]))
  }

  /**
   * Round trip: writing a parsed page list back as comma-joined decimal
   * numbers and parsing that again gives the same list.
   */
  lemma PageRangeRoundTrip(rangeStr: string, totalPages: nat, pages: seq<int>)
    requires PageRange(rangeStr, totalPages) == Ok(pages)
    ensures PageRange(Join(ShowPages(pages), ','), totalPages) == Ok(pages)
  {
    if pages == [] {
      EmptyRoundTrip(rangeStr, totalPages);
    } else {
      ShownRoundTrip(pages, totalPages);
    }
  }

  lemma EmptyRoundTrip(rangeStr: string, totalPages: nat)
    requires PageRange(rangeStr, totalPages) == Ok([])
    ensures PageRange(Join(ShowPages([]), ','), totalPages) == Ok([])
  {
    assert Join(ShowPages([]), ',') == "";
    assert Normalize("") == "";
  }

  lemma ShownRoundTrip(pages: seq<int>, totalPages: nat)
    requires pages != [] && StrictlyAscending(pages)
    requires forall i :: 0 <= i < |pages| ==> 1 <= pages[i] <= totalPages
    ensures PageRange(Join(ShowPages(pages), ','), totalPages) == Ok(pages)
  {
    var e := Join(ShowPages(pages), ',');
    ShownPagesAreClauses(pages);
    PageRangeOfClauses(e, totalPages);
    SelectionOfShown(pages, totalPages);
    AscendingOfSorted(set p | p in pages, 1, totalPages, pages);
  }

  /** Comma-joined page numbers are already normalized and split back into the numbers. */
  lemma ShownPagesAreClauses(pages: seq<int>)
    requires pages != [] && forall i :: 0 <= i < |pages| ==> pages[i] >= 0
    ensures var e := Join(ShowPages(pages), ',');
      Normalize(e) == e && !SelectsAll(e) && Split(e, ',') == ShowPages(pages)
  {
    var parts := ShowPages(pages);
    var e := Join(parts, ',');
    JoinDigits(parts);
    ToLowerNoUpper(e);
    TrimSpaceNoop(e);
    assert e != "all" by {
      assert IsDigit(e[0]);
    }
    forall i | 0 <= i < |parts|
      ensures ',' !in parts[i]
    {
      DigitsHaveNoSeparator(parts[i]);
    }
    SplitJoin(parts, ',');
  }

  lemma {:induction false} JoinDigits(parts: seq<string>)
    requires |parts| >= 1
    requires forall i :: 0 <= i < |parts| ==> IsDigits(parts[i])
    ensures var e := Join(parts, ',');
      |e| > 0 && IsDigit(e[0]) && IsDigit(e[|e| - 1]) &&
      forall i :: 0 <= i < |e| ==> IsDigit(e[i]) || e[i] == ','
  {
    if |parts| > 1 {
      JoinDigits(parts[1..]);
      var rest := Join(parts[1..], ',');
      var e := parts[0] + [','] + rest;
      assert Join(parts, ',') == e;
      forall i | 0 <= i < |e|
        ensures IsDigit(e[i]) || e[i] == ','
      {
        if i < |parts[0]| {
          assert e[i] == parts[0][i];
        } else if i > |parts[0]| {
          assert e[i] == rest[i - |parts[0]| - 1];
        }
      }
      assert e[|e| - 1] == rest[|rest| - 1];
    }
  }

  /** Each page's decimal form, as a clause, selects that page alone. */
  lemma {:induction false} SelectionOfShown(pages: seq<int>, totalPages: nat)
    requires forall i :: 0 <= i < |pages| ==> 1 <= pages[i] <= totalPages
    ensures Selection(ShowPages(pages), totalPages) == Ok(set p | p in pages)
  {
    if pages == [] {
      assert ShowPages(pages) == [];
      assert (set p | p in pages) == {};
    } else {
      var init, last := pages[..|pages| - 1], pages[|pages| - 1];
      assert pages == init + [last];
      assert ShowPages(pages) == ShowPages(init) + [Show(last)];
      SelectionOfShown(init, totalPages);
      SelectionAddShown(ShowPages(init), last, totalPages);
      assert (set p | p in init) + {last} == set p | p in pages;
    }
  }

  /** Appending the decimal form of a page to successful clauses adds that page. */
  lemma SelectionAddShown(parts: seq<string>, page: nat, totalPages: nat)
    requires 1 <= page <= totalPages && Selection(parts, totalPages).Ok?
    ensures Selection(parts + [Show(page)], totalPages) == Ok(Selection(parts, totalPages).value + {page})
  {
    var all := parts + [Show(page)];
    assert all[..|all| - 1] == parts;
    ShownClause(page, totalPages);
  }

  /** The decimal form of a page number, as a clause, selects that page. */
  lemma ShownClause(page: nat, totalPages: nat)
    requires 1 <= page <= totalPages
    ensures TrimSpace(Show(page)) == Show(page)
    ensures ClausePages(Show(page), totalPages) == Ok({page})
  {
    DigitsHaveNoSeparator(Show(page));
    TrimSpaceNoop(Show(page));
  }

  /** A strictly ascending list is the ascending listing of its own members. */
  lemma AscendingOfSorted(pages: set<int>, lo: int, hi: int, list: seq<int>)
    requires StrictlyAscending(list)
    requires forall i :: 0 <= i < |list| ==> lo <= list[i] <= hi
    requires forall p :: lo <= p <= hi ==> (p in pages <==> p in list)
    ensures Ascending(pages, lo, hi) == list
  {
    var r := Ascending(pages, lo, hi);
    forall x
      ensures x in r <==> x in list
    {
      if x in list {
        var i :| 0 <= i < |list| && list[i] == x;
      }
    }
    SortedUnique(r, list);
  }

  /** Two strictly ascending lists with the same members are equal. */
  lemma {:induction false} SortedUnique(a: seq<int>, b: seq<int>)
    requires StrictlyAscending(a) && StrictlyAscending(b)
    requires forall x :: x in a <==> x in b
    ensures a == b
    decreases |a| + |b|
  {
    if a != [] && b != [] {
      var x, y := a[|a| - 1], b[|b| - 1];
      var a', b' := a[..|a| - 1], b[..|b| - 1];
      DropLast(a);
      DropLast(b);
      assert x == y by {
        assert x in b && y in a;
      }
      forall z
        ensures z in a' <==> z in b'
      {
        assert z in a <==> z in b;
      }
      SortedUnique(a', b');
      assert a == a' + [x] && b == b' + [y];
    } else {
      FirstIsMember(a);
      FirstIsMember(b);
    }
  }

  lemma FirstIsMember(s: seq<int>)
    ensures s != [] ==> s[0] in s
  {
  }

  /**
   * Dropping the last element of a strictly ascending list leaves exactly
   * the members below it, still strictly ascending.
   */
  lemma DropLast(s: seq<int>)
    requires StrictlyAscending(s) && s != []
    ensures StrictlyAscending(s[..|s| - 1])
    ensures forall z :: z in s ==> z <= s[|s| - 1]
    ensures forall z :: z in s[..|s| - 1] <==> z in s && z < s[|s| - 1]
  {
    var last := s[|s| - 1];
    assert s == s[..|s| - 1] + [last];
    forall z | z in s
      ensures z <= last
      ensures z in s[..|s| - 1] <==> z < last
    {
      var k :| 0 <= k < |s| && s[k] == z;
      assert k == |s| - 1 || s[k] < last;
      if k < |s| - 1 {
        assert s[..|s| - 1][k] == z;
      }
    }
  }

  /** Listing no pages gives the empty list. */
  lemma {:induction false} AscendingOfNothing(lo: int, hi: int)
    ensures Ascending({}, lo, hi) == []
    decreases hi - lo
  {
    if lo <= hi {
      AscendingOfNothing(lo, hi - 1);
    }
  }
}
