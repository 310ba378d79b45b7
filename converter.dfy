/**
 * `Converter.Convert` of converter/converter.go: read the PDF, open it, count
 * its pages, resolve the page expression, create the output directory, then
 * render and save the selected pages one after another, stopping at the
 * first failure. The PDF engine and the file system are not modelled; an
 * `Environment` says which of their calls succeed.
 */
module Converter {
  import opened Wrappers
  import opened GoStrings
  import opened PageSelection
  import opened Validation
  import opened FilePaths

  /** `Config`. Quality and DPI are handed to the encoder and the renderer only. */
  datatype Config = Config(
    inputFile: string,
    outputDir: string,
    format: string,
    quality: int,
    dpi: int,
    pages: string,
    prefix: string)

  /** Which calls into the file system and the PDF engine succeed. */
  datatype Environment = Environment(
    readable: bool,            // os.ReadFile of the input file succeeds
    opens: bool,               // the engine opens the document
    pageCount: Option<nat>,    // the engine's page count; None when asking fails
    dirCreatable: bool,        // os.MkdirAll of the output directory succeeds
    unrenderable: set<int>,    // 0-based page indices the engine fails to render
    unwritable: set<string>)   // output paths that cannot be created or written

  /** The failures `Convert` reports, in the order it can meet them. */
  datatype Failure =
    | ReadFailed                         // "failed to read PDF file: ..."
    | OpenFailed                         // "failed to open PDF: ..."
    | PageCountFailed                    // "failed to get page count: ..."
    | InvalidPageRange(error: RangeError)  // "invalid page range: ..."
    | OutputDirFailed                    // "failed to create output directory: ..."
    | RenderFailed(page: int)            // "failed to render page %d: ..."
    | SaveFailed(page: int)              // "failed to save page %d: ..."
  {
    /** A failure before any page was rendered. */
    predicate IsEarly() {
      !RenderFailed? && !SaveFailed?
    }
  }

  /** The fields of a `Result` at one moment. */
  datatype Report = Report(
    inputFile: string,
    outputFiles: seq<string>,
    pageCount: int,
    success: bool,
    error: Option<Failure>)

  /**
   * Go's `Result` struct: what `Convert` has achieved so far, updated as it
   * goes. (Named apart from `Wrappers.Result`, the error-or-value type.)
   */
  class ConversionResult {
    var inputFile: string
    var outputFiles: seq<string>
    var pageCount: int
    var success: bool
    var error: Option<Failure>

    constructor (inputFile: string)
      ensures this.inputFile == inputFile && outputFiles == [] && pageCount == 0
      ensures !success && error == None
    {
      this.inputFile := inputFile;
      outputFiles := [];
      pageCount := 0;
      success := false;
      error := None;
    }

    function Snapshot(): Report
      reads this
    {
      Report(inputFile, outputFiles, pageCount, success, error)
    }
  }

  // -----------------------------------------------------------------------
  // Output names

  /** The directory the images go to: the configured one, else the input file's. */
  function OutputDirectory(cfg: Config): (dir: string)
    ensures dir != ""
    ensures cfg.outputDir == "" ==> dir == Dir(cfg.inputFile)
    ensures cfg.outputDir != "" ==> dir == cfg.outputDir
  {
    if cfg.outputDir == "" then Dir(cfg.inputFile) else cfg.outputDir
  }

  /** The file name prefix: the configured one, else the input's base name without its extension. */
  function FilePrefix(cfg: Config): (prefix: string)
    ensures cfg.prefix != "" ==> prefix == cfg.prefix
    ensures cfg.prefix == "" ==> prefix + Ext(Base(cfg.inputFile)) == Base(cfg.inputFile)
  {
    if cfg.prefix == "" then
      var base := Base(cfg.inputFile);
      TrimSuffix(base, Ext(base))
    else cfg.prefix
  }

  /**
   * The file extension: the format as given, except that "jpeg" is written
   * "jpg"; it names the same encoder as the format.
   */
  function Extension(format: string): (ext: string)
    ensures format == "jpeg" ==> ext == "jpg"
    ensures format != "jpeg" ==> ext == format
    ensures EncoderFor(ext) == EncoderFor(format)
  {
    if format == "jpeg" then "jpg" else format
  }

  /** `fmt.Sprintf("%s_page_%03d.%s", prefix, page, ext)`. */
  function OutputFileName(prefix: string, page: int, ext: string): string {
    prefix + PageSuffix(page, ext)
  }

  /**
   * What follows the prefix: "_page_", the page number in decimal, at least
   * three digits wide, then '.' and the extension.
   */
  function PageSuffix(page: int, ext: string): (suffix: string)
    ensures |suffix| >= 10 + |ext| && suffix[..6] == "_page_" && HasSuffix(suffix, "." + ext)
    ensures page >= 0 ==> var digits := suffix[6..|suffix| - |ext| - 1];
              IsDigits(digits) && DecimalValue(digits) == page && (|digits| == 3 || digits[0] != '0')
  {
    var digits := ZeroPadded3(page);
    SuffixParts("_page_", digits, "." + ext);
    "_page_" + (digits + ("." + ext))
  }

  lemma SuffixParts(front: string, middle: string, back: string)
    ensures var s := front + (middle + back);
      s[..|front|] == front && s[|front|..|s| - |back|] == middle && s[|s| - |back|..] == back
  {
  }

  /**
   * `filepath.Join(dir, name)` of the file name: with a non-empty directory
   * and no '/' in the prefix or the extension, the cleaned directory followed
   * by the file name.
   */
  function OutputPath(dir: string, prefix: string, page: int, ext: string): (path: string)
    ensures dir != "" && '/' !in prefix && '/' !in ext && page >= 0 ==>
              path == CleanParent(dir) + OutputFileName(prefix, page, ext)
  {
    var name := OutputFileName(prefix, page, ext);
    if dir != "" && '/' !in prefix && '/' !in ext && page >= 0 then
      PageSuffixHasNoSlash(page, ext);
      NoSlashConcat(prefix, PageSuffix(page, ext));
      assert name[|prefix|..|prefix| + 6] == "_page_";
      JoinPath(dir, name)
    else JoinPath(dir, name)
  }

  /** The output path of `page` under `cfg`. */
  function PagePath(cfg: Config, page: int): string {
    OutputPath(OutputDirectory(cfg), FilePrefix(cfg), page, Extension(cfg.format))
  }

  /** The output paths of `pages`, in order. */
  function PagePaths(cfg: Config, pages: seq<int>): (r: seq<string>)
    ensures |r| == |pages|
  {
    if pages == [] then [] else PagePaths(cfg, pages[..|pages| - 1]) + [PagePath(cfg, pages[|pages| - 1])]
  }

  /**
   * Where `Clean` puts the last element of `dir + "/" + prefix + ...`: `dir`
   * itself, or `dir` followed by the directories inside `prefix`.
   */
  function NameParent(dir: string, prefix: string): string {
    var u := UpToLastSlash(prefix);
    if u == [] then dir else dir + "/" + u[..|u| - 1]
  }

  /** `dir/prefix+rest` is `rest`, after what follows the last '/' of `prefix`, below `NameParent`. */
  lemma NameSplits(dir: string, prefix: string, rest: string)
    ensures dir + "/" + (prefix + rest) == NameParent(dir, prefix) + "/" + (AfterLastSlash(prefix) + rest)
  {
    var u := UpToLastSlash(prefix);
    var a := AfterLastSlash(prefix);
    LastSlashSplits(prefix);
    var parent := if u == [] then dir else dir + "/" + u[..|u| - 1];
    assert dir + "/" + ((u + a) + rest) == parent + "/" + (a + rest) by {
      Regroup(dir, u, a + rest);
    }
  }

  lemma Regroup(d: string, u: string, w: string)
    requires u == [] || u[|u| - 1] == '/'
    ensures d + "/" + (u + w) == (if u == [] then d else d + "/" + u[..|u| - 1]) + "/" + w
  {
    if u != [] {
      var v := u[..|u| - 1];
      assert u == v + "/";
      assert d + "/" + ((v + "/") + w) == (d + "/" + v) + "/" + w;
    }
  }

  lemma NoSlashConcat(a: string, b: string)
    requires '/' !in a && '/' !in b
    ensures '/' !in a + b
  {
  }

  lemma DigitsHaveNoSlash(d: string)
    requires IsDigits(d)
    ensures '/' !in d
  {
    forall i | 0 <= i < |d|
      ensures d[i] != '/'
    {
      assert IsDigit(d[i]);
    }
  }

  /** The page suffix of an output file name has no '/' when the extension has none. */
  lemma PageSuffixHasNoSlash(page: nat, ext: string)
    requires '/' !in ext
    ensures '/' !in PageSuffix(page, ext)
  {
    var digits := ZeroPadded3(page);
    DigitsHaveNoSlash(digits);
    NoSlashConcat(".", ext);
    NoSlashConcat(digits, "." + ext);
    NoSlashConcat("_page_", digits + ("." + ext));
  }

  /** The page number can be read back from the page suffix. */
  lemma PageSuffixInjective(n: nat, m: nat, ext: string)
    ensures PageSuffix(n, ext) == PageSuffix(m, ext) ==> n == m
  {
    var back := "." + ext;
    var x, y := ZeroPadded3(n), ZeroPadded3(m);
    CancelFront("_page_", x + back, y + back);
    DigitsBeforeDot(x, y, back);
  }

  /** The number of digits `s` starts with. */
  function DigitRun(s: string): (k: nat)
    ensures k <= |s|
  {
    if s == [] || !IsDigit(s[0]) then 0 else 1 + DigitRun(s[1..])
  }

  lemma {:induction false} DigitRunOf(x: string, t: string)
    requires AllDigits(x) && t != [] && !IsDigit(t[0])
    ensures DigitRun(x + t) == |x|
  {
    if x != [] {
      assert (x + t)[1..] == x[1..] + t;
      DigitRunOf(x[1..], t);
    }
  }

  /** Two digit strings followed by the same text that starts with '.' are equal when the wholes are. */
  lemma DigitsBeforeDot(x: string, y: string, back: string)
    requires AllDigits(x) && AllDigits(y) && back != [] && back[0] == '.'
    ensures x + back == y + back ==> x == y
  {
    DigitRunOf(x, back);
    DigitRunOf(y, back);
    assert x == (x + back)[..|x|];
    assert y == (y + back)[..|y|];
  }

  lemma CancelFront(front: string, x: string, y: string)
    ensures front + x == front + y ==> x == y
  {
    assert x == (front + x)[|front|..];
    assert y == (front + y)[|front|..];
  }

  /** Where `Clean` leaves an output file: its name's last element below the cleaned parent. */
  lemma OutputPathShape(dir: string, prefix: string, page: nat, ext: string)
    requires dir != [] && '/' !in ext
    ensures OutputPath(dir, prefix, page, ext)
      == CleanParent(NameParent(dir, prefix)) + (AfterLastSlash(prefix) + PageSuffix(page, ext))
  {
    var element := AfterLastSlash(prefix) + PageSuffix(page, ext);
    NameSplits(dir, prefix, PageSuffix(page, ext));
    PageSuffixHasNoSlash(page, ext);
    NoSlashConcat(AfterLastSlash(prefix), PageSuffix(page, ext));
    assert |element| >= 6;
    CleanKeepsName(NameParent(dir, prefix), element);
  }

  /** Different pages get different output paths, whatever the directory and prefix. */
  lemma OutputPathInjective(dir: string, prefix: string, ext: string, n: nat, m: nat)
    requires dir != [] && '/' !in ext && n != m
    ensures OutputPath(dir, prefix, n, ext) != OutputPath(dir, prefix, m, ext)
  {
    OutputPathShape(dir, prefix, n, ext);
    OutputPathShape(dir, prefix, m, ext);
    var front := CleanParent(NameParent(dir, prefix));
    var a := AfterLastSlash(prefix);
    CancelFront(front, a + PageSuffix(n, ext), a + PageSuffix(m, ext));
    CancelFront(a, PageSuffix(n, ext), PageSuffix(m, ext));
    PageSuffixInjective(n, m, ext);
  }

  // -----------------------------------------------------------------------
  // The per-page loop and the whole conversion

  /** Why `saveImage` fails. */
  datatype SaveError = CreateFailed | UnsupportedFormat(format: string)

  /**
   * `saveImage(img, path, format, quality)`: create the file, then encode
   * with the encoder `format` names, ignoring case.
   */
  function SaveImage(env: Environment, path: string, format: string): (r: Option<SaveError>)
    ensures r.None? <==> path !in env.unwritable && EncoderFor(format).Some?
    ensures r == Some(CreateFailed) <==> path in env.unwritable
  {
    if path in env.unwritable then Some(CreateFailed)
    else if EncoderFor(format).None? then Some(UnsupportedFormat(format))
    else None
  }

  /** How rendering and saving one page ends: `None` when both succeed. */
  function PageOutcome(cfg: Config, env: Environment, page: int): (r: Option<Failure>)
    ensures r == Some(RenderFailed(page)) <==> page - 1 in env.unrenderable
    ensures r == Some(SaveFailed(page)) <==>
              page - 1 !in env.unrenderable && (PagePath(cfg, page) in env.unwritable || EncoderFor(cfg.format).None?)
    ensures r.None? || r == Some(RenderFailed(page)) || r == Some(SaveFailed(page))
  {
    if page - 1 in env.unrenderable then Some(RenderFailed(page))
    else if SaveImage(env, PagePath(cfg, page), cfg.format).Some? then Some(SaveFailed(page))
    else None
  }

  /**
   * One turn of the loop of `Convert`: render page `pageNum` (the engine
   * counts from 0), name its file and save it there.
   */
  method RenderAndSave(cfg: Config, env: Environment, outputDir: string, prefix: string, pageNum: int)
    returns (outputFile: string, failure: Option<Failure>)
    requires outputDir == OutputDirectory(cfg) && prefix == FilePrefix(cfg)
    ensures failure == PageOutcome(cfg, env, pageNum)
    ensures failure.None? ==> outputFile == PagePath(cfg, pageNum)
  {
    var pageIndex := pageNum - 1;
    if pageIndex in env.unrenderable {
      return "", Some(RenderFailed(pageNum));
    }
    var ext := cfg.format;
    if ext == "jpeg" {
      ext := "jpg";
    }
    outputFile := JoinPath(outputDir, OutputFileName(prefix, pageNum, ext));
    assert outputFile == PagePath(cfg, pageNum) by {
      assert ext == Extension(cfg.format);
    }
    if SaveImage(env, outputFile, cfg.format).Some? {
      return outputFile, Some(SaveFailed(pageNum));
    }
    failure := None;
  }

  /** The outcome of each of `pages`, in order. */
  function Outcomes(cfg: Config, env: Environment, pages: seq<int>): (r: seq<Option<Failure>>)
    ensures |r| == |pages|
  {
    if pages == [] then [] else Outcomes(cfg, env, pages[..|pages| - 1]) + [PageOutcome(cfg, env, pages[|pages| - 1])]
  }

  /** The `i`-th outcome is the outcome of the `i`-th page. */
  lemma {:induction false} OutcomesAt(cfg: Config, env: Environment, pages: seq<int>, i: nat)
    requires i < |pages|
    ensures Outcomes(cfg, env, pages)[i] == PageOutcome(cfg, env, pages[i])
  {
    if i < |pages| - 1 {
      var init := pages[..|pages| - 1];
      assert init[i] == pages[i];
      OutcomesAt(cfg, env, init, i);
    }
  }

  /** Every outcome is the outcome of its page. */
  lemma OutcomesAll(cfg: Config, env: Environment, pages: seq<int>)
    ensures forall i :: 0 <= i < |pages| ==> Outcomes(cfg, env, pages)[i] == PageOutcome(cfg, env, pages[i])
  {
    forall i | 0 <= i < |pages|
      ensures Outcomes(cfg, env, pages)[i] == PageOutcome(cfg, env, pages[i])
    {
      OutcomesAt(cfg, env, pages, i);
    }
  }

  /** The position of the first failure among `outcomes`; |outcomes| when there is none. */
  function FirstFailure(outcomes: seq<Option<Failure>>): (k: nat)
    ensures k <= |outcomes|
    ensures forall j :: 0 <= j < k ==> outcomes[j].None?
    ensures k < |outcomes| ==> outcomes[k].Some?
  {
    if outcomes == [] then 0
    else if outcomes[0].Some? then 0
    else 1 + FirstFailure(outcomes[1..])
  }

  /**
   * What `Convert(cfg)` leaves in its `Result` in environment `env`. Every
   * such report is consistent: it succeeded exactly when it holds no error,
   * a success counts its output files, and a failure counts 0 pages.
   */
  function Expected(cfg: Config, env: Environment): (r: Report)
    ensures r.inputFile == cfg.inputFile
    ensures r.success <==> r.error.None?
    ensures r.success ==> r.pageCount == |r.outputFiles|
    ensures !r.success ==> r.pageCount == 0
  {
    var failed := (f: Failure) => Report(cfg.inputFile, [], 0, false, Some(f));
    if !env.readable then failed(ReadFailed)
    else if !env.opens then failed(OpenFailed)
    else if env.pageCount.None? then failed(PageCountFailed)
    else
      match PageRange(cfg.pages, env.pageCount.value)
      case Err(e) => failed(InvalidPageRange(e))
      case Ok(pages) =>
        if cfg.outputDir != "" && !env.dirCreatable then failed(OutputDirFailed)
        else
          Rendered(cfg, env, pages)
  }

  /**
   * The `Result` once the per-page loop has run over `pages`: consistent as
   * `Expected` is, with at most one output file per page.
   */
  function Rendered(cfg: Config, env: Environment, pages: seq<int>): (r: Report)
    ensures r.inputFile == cfg.inputFile && |r.outputFiles| <= |pages|
    ensures r.success <==> r.error.None?
    ensures r.success ==> r.pageCount == |r.outputFiles|
    ensures !r.success ==> r.pageCount == 0
  {
    var k := FirstFailure(Outcomes(cfg, env, pages));
    if k == |pages| then Report(cfg.inputFile, PagePaths(cfg, pages), |pages|, true, None)
    else
      OutcomesAt(cfg, env, pages, k);
      Report(cfg.inputFile, PagePaths(cfg, pages[..k]), 0, false, PageOutcome(cfg, env, pages[k]))
  }

  /** `Convert`: the Go routine step by step, updating a fresh `Result`. */
  method Convert(cfg: Config, env: Environment) returns (result: ConversionResult, err: Option<Failure>)
    ensures fresh(result)
    ensures result.Snapshot() == Expected(cfg, env)
    ensures err == result.error
  {
    result := new ConversionResult(cfg.inputFile);
    if !env.readable {
      result.error := Some(ReadFailed);
      return result, result.error;
    }
    if !env.opens {
      result.error := Some(OpenFailed);
      return result, result.error;
    }
    if env.pageCount.None? {
      result.error := Some(PageCountFailed);
      return result, result.error;
    }
    var totalPages := env.pageCount.value;
    var parsed := ParsePageRange(cfg.pages, totalPages);
    if parsed.Err? {
      result.error := Some(InvalidPageRange(parsed.error));
      return result, result.error;
    }
    var pages := parsed.value;
    if cfg.outputDir != "" && !env.dirCreatable {
      result.error := Some(OutputDirFailed);
      return result, result.error;
    }
    var outputDir := cfg.outputDir;
    if outputDir == "" {
      outputDir := Dir(cfg.inputFile);
    }
    var prefix := cfg.prefix;
    if prefix == "" {
      var base := Base(cfg.inputFile);
      prefix := TrimSuffix(base, Ext(base));
    }
    ConvertPages(result, cfg, env, pages, outputDir, prefix);
    err := result.error;
  }

  /**
   * The loop of `Convert`: render and save each page in turn, appending its
   * path to `OutputFiles`, and stop at the first failure; after the last
   * page, set `PageCount` and `Success`.
   */
  method ConvertPages(result: ConversionResult, cfg: Config, env: Environment, pages: seq<int>, outputDir: string, prefix: string)
    requires outputDir == OutputDirectory(cfg) && prefix == FilePrefix(cfg)
    requires result.Snapshot() == Report(cfg.inputFile, [], 0, false, None)
    modifies result
    ensures result.Snapshot() == Rendered(cfg, env, pages)
  {
    for i := 0 to |pages|
      invariant result.Snapshot() == Report(cfg.inputFile, PagePaths(cfg, pages[..i]), 0, false, None)
      invariant FirstFailure(Outcomes(cfg, env, pages)) >= i
    {
      var pageNum := pages[i];
      var outputFile, failure := RenderAndSave(cfg, env, outputDir, prefix, pageNum);
      if failure.Some? {
        result.error := failure;
        RenderedStopsAt(cfg, env, pages, i);
        return;
      }
      result.outputFiles := result.outputFiles + [outputFile];
      RenderedContinues(cfg, env, pages, i);
    }
    RenderedAllPages(cfg, env, pages);
    result.pageCount := |pages|;
    result.success := true;
  }

  /** The loop's state after page `i` has been saved. */
  lemma RenderedContinues(cfg: Config, env: Environment, pages: seq<int>, i: nat)
    requires i < |pages| && PageOutcome(cfg, env, pages[i]).None?
    requires FirstFailure(Outcomes(cfg, env, pages)) >= i
    ensures FirstFailure(Outcomes(cfg, env, pages)) >= i + 1
    ensures PagePaths(cfg, pages[..i + 1]) == PagePaths(cfg, pages[..i]) + [PagePath(cfg, pages[i])]
  {
    assert PagePaths(cfg, pages[..i + 1]) == PagePaths(cfg, pages[..i]) + [PagePath(cfg, pages[i])] by {
      assert pages[..i + 1][..i] == pages[..i];
    }
    var outcomes := Outcomes(cfg, env, pages);
    assert outcomes[i].None? by {
      OutcomesAt(cfg, env, pages, i);
    }
    FirstFailurePast(outcomes, i);
  }

  /** The loop's state when page `i` is the first to fail. */
  lemma RenderedStopsAt(cfg: Config, env: Environment, pages: seq<int>, i: nat)
    requires i < |pages| && PageOutcome(cfg, env, pages[i]).Some?
    requires FirstFailure(Outcomes(cfg, env, pages)) >= i
    ensures Rendered(cfg, env, pages)
      == Report(cfg.inputFile, PagePaths(cfg, pages[..i]), 0, false, PageOutcome(cfg, env, pages[i]))
  {
    OutcomesAt(cfg, env, pages, i);
  }

  /** The loop's state when no page fails. */
  lemma RenderedAllPages(cfg: Config, env: Environment, pages: seq<int>)
    requires FirstFailure(Outcomes(cfg, env, pages)) >= |pages|
    ensures Rendered(cfg, env, pages) == Report(cfg.inputFile, PagePaths(cfg, pages[..|pages|]), |pages|, true, None)
  {
    assert pages[..|pages|] == pages;
  }


  lemma FirstFailurePast(outcomes: seq<Option<Failure>>, i: nat)
    requires i < |outcomes| && outcomes[i].None?
    requires FirstFailure(outcomes) >= i
    ensures FirstFailure(outcomes) >= i + 1
  {
  }

  // -----------------------------------------------------------------------
  // What a conversion reports

  /** The `i`-th path of `PagePaths` is the path of the `i`-th page. */
  lemma {:induction false} PagePathsAt(cfg: Config, pages: seq<int>, i: nat)
    requires i < |pages|
    ensures PagePaths(cfg, pages)[i] == PagePath(cfg, pages[i])
  {
    if i < |pages| - 1 {
      var init := pages[..|pages| - 1];
      assert init[i] == pages[i];
      PagePathsAt(cfg, init, i);
    }
  }

  /** A format that has an encoder has no '/' in the extension written for it. */
  lemma EncodableExtension(format: string)
    requires EncoderFor(format).Some?
    ensures '/' !in Extension(format)
  {
    var f := ToLower(format);
    assert f == "jpeg" || f == "jpg" || f == "png";
    forall i | 0 <= i < |format|
      ensures format[i] != '/'
    {
      assert f[i] == LowerChar(format[i]);
    }
  }

  /** Two different pages are never saved to the same path. */
  lemma PagePathInjective(cfg: Config, n: nat, m: nat)
    requires EncoderFor(cfg.format).Some? && n != m
    ensures PagePath(cfg, n) != PagePath(cfg, m)
  {
    EncodableExtension(cfg.format);
    OutputPathInjective(OutputDirectory(cfg), FilePrefix(cfg), Extension(cfg.format), n, m);
  }

  /** The paths of strictly ascending pages are pairwise different once one page has been saved. */
  lemma PagePathsDistinct(cfg: Config, pages: seq<int>)
    requires forall j :: 0 <= j < |pages| ==> pages[j] >= 0
    requires StrictlyAscending(pages)
    requires EncoderFor(cfg.format).Some?
    ensures forall i, j :: 0 <= i < j < |pages| ==> PagePaths(cfg, pages)[i] != PagePaths(cfg, pages)[j]
  {
    forall i, j | 0 <= i < j < |pages|
      ensures PagePaths(cfg, pages)[i] != PagePaths(cfg, pages)[j]
    {
      PagePathsAt(cfg, pages, i);
      PagePathsAt(cfg, pages, j);
      PagePathInjective(cfg, pages[i], pages[j]);
    }
  }

  /** The paths the loop of `Convert` saves to over strictly ascending pages are pairwise different. */
  lemma RenderedDistinct(cfg: Config, env: Environment, pages: seq<int>)
    requires forall j :: 0 <= j < |pages| ==> pages[j] >= 0
    requires StrictlyAscending(pages)
    ensures var files := Rendered(cfg, env, pages).outputFiles;
            forall i, j :: 0 <= i < j < |files| ==> files[i] != files[j]
  {
    var k := FirstFailure(Outcomes(cfg, env, pages));
    var saved := pages[..k];
    assert Rendered(cfg, env, pages).outputFiles == PagePaths(cfg, saved) by {
      assert pages[..|pages|] == pages;
    }
    if k > 0 {
      assert EncoderFor(cfg.format).Some? by {
        OutcomesAt(cfg, env, pages, 0);
      }
      assert StrictlyAscending(saved) && forall j :: 0 <= j < |saved| ==> saved[j] >= 0 by {
        AscendingPrefix(pages, k);
      }
      PagePathsDistinct(cfg, saved);
    }
  }

  lemma AscendingPrefix(pages: seq<int>, k: nat)
    requires forall j :: 0 <= j < |pages| ==> pages[j] >= 0
    requires StrictlyAscending(pages) && k <= |pages|
    ensures StrictlyAscending(pages[..k]) && forall j :: 0 <= j < k ==> pages[..k][j] >= 0
  {
  }

  /**
   * The loop of `Convert` succeeds exactly when every page renders and
   * saves, and then reports the path of every page in order and their number.
   */
  lemma RenderedSucceedsIff(cfg: Config, env: Environment, pages: seq<int>)
    ensures Rendered(cfg, env, pages).success <==>
              forall i :: 0 <= i < |pages| ==> PageOutcome(cfg, env, pages[i]).None?
    ensures Rendered(cfg, env, pages).success ==>
              Rendered(cfg, env, pages) == Report(cfg.inputFile, PagePaths(cfg, pages), |pages|, true, None)
  {
    var outcomes := Outcomes(cfg, env, pages);
    var k := FirstFailure(outcomes);
    OutcomesAll(cfg, env, pages);
    if k < |pages| {
      assert outcomes[k].Some?;
    }
  }

  /**
   * When the loop of `Convert` fails, it has saved the pages before the
   * failing one, in order, reports 0 pages, and its error names that page.
   */
  lemma RenderedFails(cfg: Config, env: Environment, pages: seq<int>)
    requires !Rendered(cfg, env, pages).success
    ensures var r := Rendered(cfg, env, pages);
            var k := |r.outputFiles|;
            r.inputFile == cfg.inputFile && r.pageCount == 0
            && k < |pages| && r.outputFiles == PagePaths(cfg, pages[..k])
            && r.error == PageOutcome(cfg, env, pages[k])
            && (r.error == Some(RenderFailed(pages[k])) || r.error == Some(SaveFailed(pages[k])))
            && forall j :: 0 <= j < k ==> PageOutcome(cfg, env, pages[j]).None?
  {
    var outcomes := Outcomes(cfg, env, pages);
    var k := FirstFailure(outcomes);
    assert outcomes[k] == PageOutcome(cfg, env, pages[k]) by {
      OutcomesAt(cfg, env, pages, k);
    }
    forall j | 0 <= j < k
      ensures PageOutcome(cfg, env, pages[j]).None?
    {
      OutcomesAt(cfg, env, pages, j);
    }
  }

  /** Whether `Convert` gets as far as its loop: every step before it succeeds. */
  predicate ReachesLoop(cfg: Config, env: Environment) {
    env.readable && env.opens && env.pageCount.Some? && PageRange(cfg.pages, env.pageCount.value).Ok?
    && (cfg.outputDir == "" || env.dirCreatable)
  }

  /**
   * Before its loop, `Convert` stops at the first step that fails, with no
   * output and the error of that step; otherwise its result is the loop's
   * over the selected pages.
   */
  lemma ExpectedSteps(cfg: Config, env: Environment)
    ensures !ReachesLoop(cfg, env) ==>
              var r := Expected(cfg, env);
              r.inputFile == cfg.inputFile && r.outputFiles == [] && r.pageCount == 0 && !r.success
              && r.error.Some? && r.error.value.IsEarly()
    ensures !env.readable ==> Expected(cfg, env).error == Some(ReadFailed)
    ensures env.readable && !env.opens ==> Expected(cfg, env).error == Some(OpenFailed)
    ensures env.readable && env.opens && env.pageCount.None? ==> Expected(cfg, env).error == Some(PageCountFailed)
    ensures env.readable && env.opens && env.pageCount.Some? && PageRange(cfg.pages, env.pageCount.value).Err? ==>
              Expected(cfg, env).error == Some(InvalidPageRange(PageRange(cfg.pages, env.pageCount.value).error))
    ensures env.readable && env.opens && env.pageCount.Some? && PageRange(cfg.pages, env.pageCount.value).Ok? &&
            cfg.outputDir != "" && !env.dirCreatable ==>
              Expected(cfg, env).error == Some(OutputDirFailed)
    ensures ReachesLoop(cfg, env) ==>
              var pages := PageRange(cfg.pages, env.pageCount.value).value;
              (forall j :: 0 <= j < |pages| ==> pages[j] >= 1) && StrictlyAscending(pages)
              && Expected(cfg, env) == Rendered(cfg, env, pages)
  {
  }

  /** No two output files of a conversion are the same file. */
  lemma OutputFilesDistinct(cfg: Config, env: Environment)
    ensures var files := Expected(cfg, env).outputFiles;
            forall i, j :: 0 <= i < j < |files| ==> files[i] != files[j]
  {
    ExpectedSteps(cfg, env);
    if ReachesLoop(cfg, env) {
      RenderedDistinct(cfg, env, PageRange(cfg.pages, env.pageCount.value).value);
    }
  }

  /**
   * `Convert` succeeds exactly when reading, opening, counting, resolving the
   * page expression, creating the directory and every page's rendering and
   * saving succeed; it then reports the path of every selected page in
   * order, the number of pages and no error.
   */
  lemma ConvertSucceedsIff(cfg: Config, env: Environment)
    ensures Expected(cfg, env).success <==>
      ReachesLoop(cfg, env)
      && forall i :: 0 <= i < |PageRange(cfg.pages, env.pageCount.value).value| ==>
           PageOutcome(cfg, env, PageRange(cfg.pages, env.pageCount.value).value[i]).None?
    ensures Expected(cfg, env).success ==>
      var pages := PageRange(cfg.pages, env.pageCount.value).value;
      Expected(cfg, env) == Report(cfg.inputFile, PagePaths(cfg, pages), |pages|, true, None)
  {
    ExpectedSteps(cfg, env);
    if ReachesLoop(cfg, env) {
      RenderedSucceedsIff(cfg, env, PageRange(cfg.pages, env.pageCount.value).value);
    }
  }

  /**
   * A failed `Convert` reports an error and a page count of 0. When it fails
   * before rendering, it has saved nothing; when a page fails, it has saved
   * the selected pages before that page, in order, and the error names it.
   */
  lemma FailedReport(cfg: Config, env: Environment)
    requires !Expected(cfg, env).success
    ensures var r := Expected(cfg, env);
            r.inputFile == cfg.inputFile && r.error.Some? && r.pageCount == 0
    ensures var r := Expected(cfg, env);
            r.error.Some? && r.error.value.IsEarly() ==> r.outputFiles == []
    ensures var r := Expected(cfg, env);
            r.error.Some? && !r.error.value.IsEarly() ==>
              ReachesLoop(cfg, env) &&
              var pages := PageRange(cfg.pages, env.pageCount.value).value;
              var k := |r.outputFiles|;
              k < |pages| && r.outputFiles == PagePaths(cfg, pages[..k])
              && r.error == PageOutcome(cfg, env, pages[k])
              && (r.error == Some(RenderFailed(pages[k])) || r.error == Some(SaveFailed(pages[k])))
              && forall j :: 0 <= j < k ==> PageOutcome(cfg, env, pages[j]).None?
  {
    ExpectedSteps(cfg, env);
    if ReachesLoop(cfg, env) {
      RenderedFails(cfg, env, PageRange(cfg.pages, env.pageCount.value).value);
    }
  }

  /** Without an encoder for the format, the first page fails to save and nothing is saved. */
  lemma UnsupportedFormatSavesNothing(cfg: Config, env: Environment)
    requires EncoderFor(cfg.format).None?
    ensures Expected(cfg, env).outputFiles == []
  {
    ExpectedSteps(cfg, env);
    if ReachesLoop(cfg, env) {
      var pages := PageRange(cfg.pages, env.pageCount.value).value;
      if pages != [] {
        assert Outcomes(cfg, env, pages)[0].Some? by {
          OutcomesAt(cfg, env, pages, 0);
        }
      }
    }
  }

  /**
   * A page expression that `ValidatePageRange` accepts can still make
   * `Convert` fail, but only by naming pages the document does not have.
   */
  lemma ValidatedPagesResolve(cfg: Config, env: Environment)
    requires ValidatePageRange(cfg.pages).None?
    ensures var r := Expected(cfg, env);
            r.error.Some? && r.error.value.InvalidPageRange? ==> r.error.value.error.IsBoundsError()
  {
    if env.pageCount.Some? {
      ValidatedRangeResolves(cfg.pages, env.pageCount.value);
    }
  }

  /** A document without pages converts successfully to nothing when every page is asked for. */
  lemma EmptyDocumentSucceeds(cfg: Config, env: Environment)
    requires env.readable && env.opens && env.pageCount == Some(0)
    requires SelectsAll(Normalize(cfg.pages)) && (cfg.outputDir == "" || env.dirCreatable)
    ensures Expected(cfg, env) == Report(cfg.inputFile, [], 0, true, None)
  {
    assert PageRange(cfg.pages, 0) == Ok([]);
  }

  /**
   * `%03d` in file names: a page below 1000 gets exactly three digits, a
   * larger one all of its digits, and a negative one a sign before two.
   */
  lemma FileNameExamples()
    ensures OutputFileName("doc", 2, "png") == "doc_page_002.png"
    ensures OutputFileName("doc", 1234, "jpg") == "doc_page_1234.jpg"
    ensures OutputFileName("doc", -5, "png") == "doc_page_-05.png"
  {
    PaddedSmall();
    PaddedLarge();
    PaddedNegative();
  }

  lemma PaddedSmall()
    ensures OutputFileName("doc", 2, "png") == "doc_page_002.png"
  {
    PaddedTwo();
  }

  lemma PaddedName(prefix: string, page: int, ext: string, digits: string)
    requires ZeroPadded3(page) == digits
    ensures OutputFileName(prefix, page, ext) == prefix + "_page_" + digits + "." + ext
  {
  }

  lemma PaddedTwo()
    ensures ZeroPadded3(2) == "002"
  {
    ShowDigit(2);
  }

  lemma PaddedLarge()
    ensures OutputFileName("doc", 1234, "jpg") == "doc_page_1234.jpg"
  {
    ShowDigit(1);
    ShowAppend(1, 2);
    ShowAppend(12, 3);
    ShowAppend(123, 4);
    assert ZeroPadded3(1234) == "1234";
  }

  lemma PaddedNegative()
    ensures OutputFileName("doc", -5, "png") == "doc_page_-05.png"
  {
    ShowDigit(5);
    assert ZeroPadded3(-5) == "-05";
  }

  lemma ShowDigit(d: nat)
    requires d < 10
    ensures Show(d) == [('0' as int + d) as char]
  {
  }

  lemma ShowAppend(n: nat, d: nat)
    requires n > 0 && d < 10
    ensures Show(10 * n + d) == Show(n) + [('0' as int + d) as char]
  {
    assert (10 * n + d) / 10 == n && (10 * n + d) % 10 == d;
  }

  /**
   * With neither an output directory nor a prefix configured, page 2 of
   * "/in/doc.pdf" in JPEG goes next to the input as "doc_page_002.jpg".
   */
  lemma DefaultNamesExample()
    ensures var cfg := Config("/in/doc.pdf", "", "jpeg", 90, 150, "all", "");
      OutputDirectory(cfg) == "/in" && FilePrefix(cfg) == "doc" && PagePath(cfg, 2) == "/in/doc_page_002.jpg"
  {
    var cfg := Config("/in/doc.pdf", "", "jpeg", 90, 150, "all", "");
    assert OutputDirectory(cfg) == "/in" by {
      ExampleDir();
    }
    assert FilePrefix(cfg) == "doc" by {
      ExamplePrefix();
    }
    assert Extension(cfg.format) == "jpg";
    assert PagePath(cfg, 2) == CleanParent("/in") + OutputFileName("doc", 2, "jpg") by {
      assert '/' !in "doc" && '/' !in "jpg";
    }
    ExampleFileName();
  }

  lemma ExampleFileName()
    ensures CleanParent("/in") + OutputFileName("doc", 2, "jpg") == "/in/doc_page_002.jpg"
  {
    ExampleParent();
    PaddedTwo();
    PaddedName("doc", 2, "jpg", "002");
  }

  lemma ExampleDir()
    ensures Dir("/in/doc.pdf") == "/in"
  {
    DirOfJoin("/in", "doc.pdf");
    assert "/in" + "/" + "doc.pdf" == "/in/doc.pdf";
    ExampleResolve();
    CleanOfElements("/in", true, ["in"]);
  }

  lemma ExampleResolve()
    ensures IsRooted("/in") && Resolve(Split("/in", '/'), true) == ["in"]
  {
    assert "/in"[1..] == "in";
    assert Split("in", '/') == ["in"];
    assert Split("/in", '/') == ["", "in"];
    assert ["", "in"][..1] == [""];
    assert [""][..0] == [];
  }

  lemma ExampleParent()
    ensures CleanParent("/in") == "/in/"
  {
    ExampleResolve();
    CleanParentOfElements("/in", true, ["in"]);
  }

  lemma ExamplePrefix()
    ensures Base("/in/doc.pdf") == "doc.pdf" && Ext("doc.pdf") == ".pdf"
    ensures TrimSuffix("doc.pdf", ".pdf") == "doc"
  {
    assert TrimTrailingSlashes("/in/doc.pdf") == "/in/doc.pdf";
    ExampleAfterSlash();
    ExampleExt();
  }

  lemma ExampleAfterSlash()
    ensures AfterLastSlash("/in/doc.pdf") == "doc.pdf"
  {
    assert "/in/doc.pdf" == "/in/" + "doc.pdf";
    var front := "/in/";
    AfterLastSlashAppend(front, "doc.pdf");
  }

  lemma {:induction false} AfterLastSlashAppend(front: string, name: string)
    requires front != [] && front[|front| - 1] == '/' && '/' !in name
    ensures AfterLastSlash(front + name) == name
  {
    if name != [] {
      var init := name[..|name| - 1];
      assert (front + name)[..|front + name| - 1] == front + init;
      AfterLastSlashAppend(front, init);
      assert init + [name[|name| - 1]] == name;
    } else {
      assert front + name == front;
    }
  }

  lemma ExampleExt()
    ensures Ext("doc.pdf") == ".pdf"
  {
    assert "doc.pdf"[..6] == "doc.pd";
    assert "doc.pd"[..5] == "doc.p";
    assert "doc.p"[..4] == "doc.";
  }
}
