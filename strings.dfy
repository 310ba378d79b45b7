/**
 * The parts of Go's `strings` and `strconv` packages that the page-range
 * code relies on: lower-casing, trimming white space, splitting on a
 * separator, joining, `strconv.Atoi`, and decimal formatting (`%d`, `%03d`).
 */
module GoStrings {
  import opened Wrappers

  // ---------------------------------------------------------------------
  // Characters

  /** `unicode.IsSpace`: the characters `strings.TrimSpace` removes. */
  predicate IsSpace(c: char) {
    c == '\t' || c == '\n' || c == '\U{000B}' || c == '\U{000C}' || c == '\r' || c == ' '
    || c == '\U{0085}' || c == '\U{00A0}' || c == '\U{1680}'
    || ('\U{2000}' <= c <= '\U{200A}')
    || c == '\U{2028}' || c == '\U{2029}' || c == '\U{202F}' || c == '\U{205F}' || c == '\U{3000}'
  }

  predicate AllSpace(s: string) {
    forall i :: 0 <= i < |s| ==> IsSpace(s[i])
  }

  predicate IsDigit(c: char) {
    '0' <= c <= '9'
  }

  /** Zero or more decimal digits. */
  predicate AllDigits(s: string) {
    forall i :: 0 <= i < |s| ==> IsDigit(s[i])
  }

  /** One or more decimal digits (the regular expression `\d+`). */
  predicate IsDigits(s: string) {
    |s| > 0 && AllDigits(s)
  }

  function DigitValue(c: char): nat
    requires IsDigit(c)
  {
    c as int - '0' as int
  }

  function DigitChar(d: nat): (c: char)
    requires d < 10
    ensures IsDigit(c) && DigitValue(c) == d
  {
    ('0' as int + d) as char
  }

  // ---------------------------------------------------------------------
  // strings.ToLower (ASCII letters)

  function LowerChar(c: char): char {
    if 'A' <= c <= 'Z' then (c as int - 'A' as int + 'a' as int) as char else c
  }

  function ToLower(s: string): string {
    seq(|s|, i requires 0 <= i < |s| => LowerChar(s[i]))
  }

  lemma ToLowerNoUpper(s: string)
    requires forall i :: 0 <= i < |s| ==> !('A' <= s[i] <= 'Z')
    ensures ToLower(s) == s
  {
  }

  // ---------------------------------------------------------------------
  // strings.TrimSpace

  function TrimLeft(s: string): (r: string)
    ensures r == [] || !IsSpace(r[0])
  {
    if s != [] && IsSpace(s[0]) then TrimLeft(s[1..]) else s
  }

  function TrimRight(s: string): (r: string)
    ensures r == [] || !IsSpace(r[|r| - 1])
    ensures r <= s
  {
    if s != [] && IsSpace(s[|s| - 1]) then TrimRight(s[..|s| - 1]) else s
  }

  /** TrimLeft drops only white space, from the front. */
  lemma {:induction false} TrimLeftDrops(s: string)
    ensures var r := TrimLeft(s);
      |r| <= |s| && r == s[|s| - |r|..] && AllSpace(s[..|s| - |r|])
  {
    if s != [] && IsSpace(s[0]) {
      TrimLeftDrops(s[1..]);
      var r := TrimLeft(s[1..]);
      assert s[1..][..|s| - 1 - |r|] == s[1..|s| - |r|];
    }
  }

  /** TrimRight drops only white space, from the back. */
  lemma {:induction false} TrimRightDrops(s: string)
    ensures AllSpace(s[|TrimRight(s)|..])
  {
    if s != [] && IsSpace(s[|s| - 1]) {
      TrimRightDrops(s[..|s| - 1]);
      var r := TrimRight(s[..|s| - 1]);
      assert s[..|s| - 1][|r|..] == s[|r|..|s| - 1];
    }
  }

  /** `strings.TrimSpace`: the text with leading and trailing white space removed. */
  function TrimSpace(s: string): (r: string)
    ensures r == [] || (!IsSpace(r[0]) && !IsSpace(r[|r| - 1]))
  {
    TrimRight(TrimLeft(s))
  }

  /**
   * TrimSpace keeps exactly the text between the white space at the two
   * ends: what comes before it and what comes after it is all white space.
   */
  lemma TrimSpaceBetween(s: string)
    ensures var r := TrimSpace(s);
      exists i :: 0 <= i <= |s| && AllSpace(s[..i]) && r <= s[i..] && AllSpace(s[i..][|r|..])
  {
    TrimLeftDrops(s);
    TrimRightDrops(TrimLeft(s));
    var i := |s| - |TrimLeft(s)|;
    assert TrimLeft(s) == s[i..];
  }

  /** Text without white space at either end is left alone by TrimSpace. */
  lemma TrimSpaceNoop(s: string)
    requires s == [] || (!IsSpace(s[0]) && !IsSpace(s[|s| - 1]))
    ensures TrimSpace(s) == s
  {
  }

  /** Trimming a text padded with white space on both sides gives the text back. */
  lemma TrimSpacePadded(before: string, t: string, after: string)
    requires AllSpace(before) && AllSpace(after)
    requires t != [] && !IsSpace(t[0]) && !IsSpace(t[|t| - 1])
    ensures TrimSpace(before + t + after) == t
  {
    TrimLeftPadded(before, t + after);
    assert before + t + after == before + (t + after);
    TrimRightPadded(t, after);
  }

  lemma {:induction false} TrimLeftPadded(pad: string, t: string)
    requires AllSpace(pad)
    requires t != [] && !IsSpace(t[0])
    ensures TrimLeft(pad + t) == t
  {
    if pad == [] {
      assert pad + t == t;
    } else {
      assert (pad + t)[1..] == pad[1..] + t;
      TrimLeftPadded(pad[1..], t);
    }
  }

  lemma {:induction false} TrimRightPadded(t: string, pad: string)
    requires AllSpace(pad)
    requires t != [] && !IsSpace(t[|t| - 1])
    ensures TrimRight(t + pad) == t
  {
    if pad == [] {
      assert t + pad == t;
    } else {
      var init := pad[..|pad| - 1];
      assert (t + pad)[..|t + pad| - 1] == t + init;
      TrimRightPadded(t, init);
    }
  }

  // ---------------------------------------------------------------------
  // strings.Split and strings.Join with a one-character separator

  /** The pieces of `s` between occurrences of `sep`; one more piece than separators. */
  function Split(s: string, sep: char): (parts: seq<string>)
    ensures |parts| >= 1
    ensures forall i :: 0 <= i < |parts| ==> sep !in parts[i]
    ensures (|parts| == 1) == (sep !in s)
    ensures sep !in s ==> parts == [s]
  {
    if s == [] then [""]
    else
      var rest := Split(s[1..], sep);
      assert s == [s[0]] + s[1..];
      if s[0] == sep then [""] + rest
      else [[s[0]] + rest[0]] + rest[1..]
  }

  /** Cuts `s` at the first `sep`: the text before it and the text after it. */
  lemma CutAtFirst(s: string, sep: char) returns (before: string, after: string)
    requires sep in s
    ensures s == before + [sep] + after && sep !in before
    ensures Split(s, sep) == [before] + Split(after, sep)
    ensures forall c :: c !in s ==> c !in before && c !in after
  {
    before, after := FirstSeparator(s, sep);
    SplitConcat(before, after, sep);
    assert Split(before, sep) == [before];
    forall c | c !in s
      ensures c !in before && c !in after
    {
      assert s == before + [sep] + after;
    }
  }

  /** The text before the first `sep` and the text after it. */
  lemma {:induction false} FirstSeparator(s: string, sep: char) returns (before: string, after: string)
    requires sep in s
    ensures s == before + [sep] + after && sep !in before
  {
    if s[0] == sep {
      before, after := [], s[1..];
      assert s == before + [sep] + after;
    } else {
      var b, a := FirstSeparator(s[1..], sep);
      before, after := [s[0]] + b, a;
      assert s == [s[0]] + s[1..] == before + [sep] + after;
    }
  }

  function Join(parts: seq<string>, sep: char): (r: string)
    ensures parts != [] ==> parts[0] <= r
  {
    if parts == [] then ""
    else if |parts| == 1 then parts[0]
    else parts[0] + [sep] + Join(parts[1..], sep)
  }

  /** Joining one more piece adds a separator and the piece at the end. */
  lemma {:induction false} JoinSnoc(parts: seq<string>, last: string, sep: char)
    requires parts != []
    ensures Join(parts + [last], sep) == Join(parts, sep) + [sep] + last
  {
    if |parts| > 1 {
      assert (parts + [last])[1..] == parts[1..] + [last];
      JoinSnoc(parts[1..], last, sep);
    }
  }

  /** Splitting at one separator splits the two sides independently. */
  lemma {:induction false} SplitConcat(a: string, b: string, sep: char)
    ensures Split(a + [sep] + b, sep) == Split(a, sep) + Split(b, sep)
  {
    if a == [] {
      assert a + [sep] + b == [sep] + b;
      assert ([sep] + b)[1..] == b;
    } else {
      assert (a + [sep] + b)[1..] == a[1..] + [sep] + b;
      assert (a + [sep] + b)[0] == a[0];
      SplitConcat(a[1..], b, sep);
    }
  }

  /** Join followed by Split gives the pieces back when no piece holds the separator. */
  lemma {:induction false} SplitJoin(parts: seq<string>, sep: char)
    requires |parts| >= 1
    requires forall i :: 0 <= i < |parts| ==> sep !in parts[i]
    ensures Split(Join(parts, sep), sep) == parts
  {
    if |parts| == 1 {
      assert Split(parts[0], sep) == [parts[0]];
    } else {
      SplitJoin(parts[1..], sep);
      SplitConcat(parts[0], Join(parts[1..], sep), sep);
      assert Split(parts[0], sep) == [parts[0]];
      assert [parts[0]] + parts[1..] == parts;
    }
  }

  // ---------------------------------------------------------------------
  // strings.HasSuffix and strings.TrimSuffix

  predicate HasSuffix(s: string, suffix: string) {
    |suffix| <= |s| && s[|s| - |suffix|..] == suffix
  }

  /** `s` without `suffix` at its end; `s` itself when it does not end with it. */
  function TrimSuffix(s: string, suffix: string): (r: string)
    ensures HasSuffix(s, suffix) ==> r + suffix == s
    ensures !HasSuffix(s, suffix) ==> r == s
  {
    if HasSuffix(s, suffix) then
      assert s == s[..|s| - |suffix|] + s[|s| - |suffix|..];
      s[..|s| - |suffix|]
    else s
  }

  // ---------------------------------------------------------------------
  // Decimal numbers: strconv.Atoi and %d / %03d

  /** The value of a run of decimal digits (0 for the empty run). */
  function DecimalValue(s: string): nat
    requires AllDigits(s)
  {
    if s == [] then 0 else DecimalValue(s[..|s| - 1]) * 10 + DigitValue(s[|s| - 1])
  }

  /**
   * `strconv.Atoi`: an optional `+` or `-` sign, then one or more decimal
   * digits; `None` is Go's syntax error.
   */
  function Atoi(s: string): (r: Option<int>)
    ensures IsDigits(s) ==> r == Some(DecimalValue(s))
    ensures |s| > 1 && (s[0] == '+' || s[0] == '-') && IsDigits(s[1..]) ==>
              r == Some(if s[0] == '-' then -(DecimalValue(s[1..]) as int) else DecimalValue(s[1..]) as int)
    ensures r.Some? ==> |s| > 0 && IsDigits(if s[0] == '+' || s[0] == '-' then s[1..] else s)
  {
    if s == [] then None
    else if s[0] == '+' || s[0] == '-' then
      var digits := s[1..];
      if IsDigits(digits) then
        var magnitude: int := DecimalValue(digits);
        Some(if s[0] == '-' then -magnitude else magnitude)
      else None
    else if IsDigits(s) then Some(DecimalValue(s))
    else None
  }

  /** `strconv.Itoa` / `%d` of a natural number: its shortest decimal form. */
  function Show(n: nat): (r: string)
    ensures IsDigits(r) && DecimalValue(r) == n
    ensures n > 0 ==> r[0] != '0'
  {
    if n < 10 then
      var r := [DigitChar(n)];
      assert r[..0] == [];
      r
    else
      var r := Show(n / 10) + [DigitChar(n % 10)];
      assert r[..|r| - 1] == Show(n / 10);
      r
  }

  function Zeros(k: nat): (r: string)
    ensures |r| == k && AllDigits(r)
  {
    seq(k, _ => '0')
  }

  /** Leading zeros do not change a decimal value. */
  lemma {:induction false} LeadingZeros(k: nat, d: string)
    requires AllDigits(d)
    ensures AllDigits(Zeros(k) + d) && DecimalValue(Zeros(k) + d) == DecimalValue(d)
    decreases |d| + k
  {
    var z := Zeros(k);
    if d == [] {
      assert z + d == z;
      if k > 0 {
        assert z[..k - 1] == Zeros(k - 1);
        LeadingZeros(k - 1, []);
        assert Zeros(k - 1) + [] == Zeros(k - 1);
      }
    } else {
      var d' := d[..|d| - 1];
      assert (z + d)[..|z + d| - 1] == z + d';
      LeadingZeros(k, d');
    }
  }

  /** `fmt.Sprintf("%03d", n)` for a natural number: zero-padded to at least three digits. */
  function Pad3(n: nat): (r: string)
    ensures IsDigits(r) && |r| >= 3 && DecimalValue(r) == n
    ensures |r| == 3 || r[0] != '0'
  {
    var d := Show(n);
    if |d| >= 3 then d
    else
      LeadingZeros(3 - |d|, d);
      Zeros(3 - |d|) + d
  }

  /**
   * `fmt.Sprintf("%03d", n)` for any integer: a negative number is its sign
   * followed by its magnitude zero-padded to at least two digits.
   */
  function ZeroPadded3(n: int): (r: string)
    ensures n >= 0 ==> r == Pad3(n)
    ensures n < 0 ==> |r| >= 3 && r[0] == '-' && AllDigits(r[1..]) && DecimalValue(r[1..]) == -n
    ensures n < 0 ==> |r| == 3 || r[1] != '0'
  {
    if n >= 0 then Pad3(n)
    else
      var d := Show(-n);
      var digits := if |d| >= 2 then d else (LeadingZeros(2 - |d|, d); Zeros(2 - |d|) + d);
      assert ("-" + digits)[1..] == digits;
      "-" + digits
  }
}
