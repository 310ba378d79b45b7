# pdf2img converter core in Dafny

This project models the core of the `converter` package of pdf2img, a
command-line tool that renders the pages of a PDF to PNG or JPEG images.
It covers three pieces of that package:

- **Page selection.** `parsePageRange` turns a page expression such as
  `"all"`, `"3"`, `"5-1"` or `"1, 3, 5-7"` and a page count into the
  ascending list of selected pages, or an error.
  - `PageSelection.PageRange` is its specification, as a function.
  - `PageSelection.ParsePageRange` follows the Go code step by step: the fill
    loop, the `pageSet` marking loop over the clauses, and the final listing.
    It is proved to return exactly `PageRange`.
- **Up-front validation.**
  - `ValidateFormat` accepts png, jpeg and jpg in any letter case.
  - `ValidatePageRange` checks the expression's syntax against the regular
    expression `^(\d+(-\d+)?)(,\s*\d+(-\d+)?)*$`. Here a six-state automaton
    (`Validation.Run`) stands in for the regular expression. It is proved to
    accept exactly a grammar of comma-separated terms (`WellFormedRange`).
  - The two range checks are then related. Numbers here are unbounded, and
    under that reading an expression the syntax check accepts can fail to
    resolve only because it names pages outside the document. Go's
    `strconv.Atoi` also rejects numbers beyond 64 bits; see "## Left out".
- **`Converter.Convert`.** Convert runs these steps in order: read the file,
  open it, count its pages, resolve the pages, create the output directory,
  choose the output directory and file prefix, then render and save each
  page.
  - `Convert` is a method over a `ConversionResult` class (Go's `Result`
    struct) whose fields it updates as the Go code does.
  - The PDF engine and the file system are an `Environment` value. It says
    which calls succeed and how many pages the document has.
  - `Convert` is proved to leave its `ConversionResult` equal to the specification
    `Expected`.
  - The lemmas about `Expected` state when a conversion succeeds, what a
    failed one reports, and that no two output files coincide.

The files:

- `wrappers.dfy`: `Option` and `Result`.
- `strings.dfy`: the parts of Go's `strings` and `strconv` packages and of
  `%03d` formatting that the core uses.
- `filepaths.dfy`: `filepath.Clean`, `Join`, `Dir`, `Base` and `Ext` for
  '/'-separated paths.
- `pagerange.dfy`: page selection.
- `validation.dfy`: the two validators.
- `converter.dfy`: `Convert`.

Two behaviours of the code are worth knowing. With 0 pages, `""` or `"all"`
returns the empty list and no error (converter/converter.go:191-196). The
"no valid pages" error (converter/converter.go:258-260) is raised only in
the clause branch.

## Model

| member | source | states |
|---|---|---|
| PageSelection.Normalize | converter/converter.go:189 | the normalised expression holds no upper-case letter and neither starts nor ends with white space |
| PageSelection.NormalizeIdempotent | converter/converter.go:189 | normalising twice is normalising once |
| PageSelection.Listed | converter/converter.go:251-262 | a failed selection passes its error on; a successful one lists its pages in [1, totalPages], strictly ascending; "no valid pages" comes exactly when none of them is in range, and any other outcome is a list |
| PageSelection.PageRange | converter/converter.go:188-263 | a resolved list is strictly ascending with every page in [1, totalPages]; "" and "all" (after lower-casing and trimming) give exactly 1..totalPages, the empty list when there are no pages; any other expression that resolves gives a non-empty list |
| PageSelection.ParsePageRange | converter/converter.go:188-263 | the imperative parse (fill loop, pageSet marking loop, ascending listing, empty check) returns exactly `PageRange` for every input |
| PageSelection.AllPages | converter/converter.go:191-196 | the fill loop produces the list 1, 2, …, totalPages |
| PageSelection.MarkClause | converter/converter.go:208-248 | a clause that fails returns its error and leaves pageSet unchanged; one that succeeds marks exactly its pages on top of those already marked |
| PageSelection.ListMarked | converter/converter.go:251-256 | listing the marked pages gives the selected set in strictly ascending order |
| PageSelection.ClausePages | converter/converter.go:208-248 | a clause that succeeds selects a non-empty set of pages in [1, totalPages]; no clause error is "no valid pages" |
| PageSelection.Selection | converter/converter.go:199-249 | the pages the clause loop collects all lie in [1, totalPages] |
| PageSelection.Ascending | converter/converter.go:251-256 | the listing is strictly ascending, within bounds, and holds exactly the set's members in range |
| PageSelection.Interval | converter/converter.go:233-235 | a page is in the interval exactly when it lies between its ends |
| PageSelection.Span | converter/converter.go:229-235 | a span holds exactly the pages between its two ends, in either order |
| PageSelection.SelectionIsUnion | converter/converter.go:199-206 | on success, every non-blank clause succeeds and its pages are selected, and every selected page comes from some non-blank clause: the selection is the union of the clauses |
| PageSelection.SelectionCoversClauses | converter/converter.go:202-249 | on success, every non-blank clause's pages are in the selection |
| PageSelection.SelectionWithinClauses | converter/converter.go:202-249 | on success, every selected page belongs to some non-blank clause |
| PageSelection.SelectionConcat | converter/converter.go:202-249 | reading two clause lists in turn: the first error wins, otherwise the selections are united |
| PageSelection.SelectionReorder | converter/converter.go:199-206 | two clause lists that both succeed select the same pages in either order |
| PageSelection.SelectionRepeat | converter/converter.go:199-206 | repeating the clauses changes neither the pages nor the error |
| PageSelection.SelectionErrorPersists | converter/converter.go:211-245 | once a prefix of the clauses has failed, later clauses do not change the error |
| PageSelection.SelectionFailsAtFirstBadClause | converter/converter.go:209-245 | a failed selection reports the error of the first non-blank clause that fails, and every non-blank clause before it succeeds |
| PageSelection.SelectionSucceedsIff | converter/converter.go:202-249 | the clause loop succeeds exactly when every non-blank clause does |
| PageSelection.SpanOrderInsensitive | converter/converter.go:225-235 | "a-b" and "b-a" succeed or fail together, select the same interval min..max, and fail only with the span bounds error |
| PageSelection.NumberClause | converter/converter.go:237-248 | a hyphen-free clause of digits selects exactly its page, or is "page number out of range" with that number when outside [1, totalPages] |
| PageSelection.NonNumericClause | converter/converter.go:237-241 | a hyphen-free clause that is not an optionally '+'-signed run of digits is "invalid page number" for that clause |
| PageSelection.ExtraHyphens | converter/converter.go:209-213 | a clause with more than one '-' is "invalid range format" for that clause |
| PageSelection.HyphenClause | converter/converter.go:209-235 | in an A-B clause, a side that is not an integer is "invalid page number" for that side, the first side first; two integers are a bounds error outside [1, totalPages] and otherwise select every page between them |
| PageSelection.PageRangeFailsAtFirstBadClause | converter/converter.go:202-249 | outside "" and "all", an expression with a failing non-blank clause fails with the error of the first such clause |
| PageSelection.SpanPastEndFails | converter/converter.go:225-227 | "1-5" over a 3-page document fails as out of range |
| PageSelection.PagePastEndFails | converter/converter.go:243-245 | "7" over a 5-page document fails with "page number out of range" and the number 7 |
| PageSelection.SpanClause | converter/converter.go:225-235 | a span of two numbers is a bounds error when either end is outside [1, totalPages], otherwise it selects every page between them |
| PageSelection.NoValidPagesExactly | converter/converter.go:258-260 | "no valid pages" is returned exactly when the expression is not ""/"all" and every comma-separated clause is blank |
| PageSelection.BlankClausesSelectNothing | converter/converter.go:203-206 | clauses that are all blank select nothing and raise no error |
| PageSelection.NonBlankClauseSelects | converter/converter.go:233-247 | a successful selection with a non-blank clause is non-empty |
| PageSelection.PageRangeRoundTrip | converter/converter.go:188-263 | writing a resolved list back as comma-separated numbers and resolving it again gives the same list |
| PageSelection.ShownPagesAreClauses | converter/converter.go:199-203 | the comma-joined decimal pages are unchanged by lower-casing and trimming and split back into the same pieces |
| PageSelection.SelectionOfShown | converter/converter.go:199-249 | the decimal spellings of in-range pages, as clauses, select exactly those pages |
| PageSelection.ShownClause | converter/converter.go:238-247 | the decimal spelling of an in-range page is a clause selecting exactly that page |
| PageSelection.AscendingOfSorted | converter/converter.go:252-256 | any strictly ascending list holding exactly the set's members is the sorted listing |
| PageSelection.SortedUnique | converter/converter.go:256 | two strictly ascending lists with the same members are equal |
| GoStrings.TrimSpace | converter/converter.go:189 | the result neither starts nor ends with white space |
| GoStrings.TrimSpaceBetween | converter/converter.go:189 | the result is the text between a run of leading and a run of trailing white space of the input, which pins it down |
| GoStrings.TrimSpacePadded | converter/converter.go:203 | a text with white space added on either side trims back to the text, so "1 " becomes "1" |
| GoStrings.Split | converter/converter.go:200 | there is at least one piece, no piece holds the separator, and there is exactly one piece when the separator is absent |
| GoStrings.SplitJoin | converter/converter.go:200 | splitting a join of separator-free pieces gives the pieces back |
| GoStrings.Atoi | converter/converter.go:215-222 | a string of decimal digits converts to its decimal value; '+' or '-' followed by digits converts to that value with the sign; nothing else converts |
| GoStrings.TrimSuffix | converter/converter.go:144 | with the suffix present, the result followed by the suffix is the string; otherwise the string is unchanged |
| GoStrings.Pad3 | converter/converter.go:171 | `%03d` of a natural number is decimal digits whose value is the number: exactly three when padding is needed, otherwise without a leading zero |
| GoStrings.ZeroPadded3 | converter/converter.go:171 | `%03d` of a natural number is `Pad3`; of a negative number, '-' followed by the digits of its magnitude, three characters in all or without a leading zero |
| Validation.ValidateFormat | converter/converter.go:291-297 | a rejected format is reported in lower case |
| Validation.EncoderFor | converter/converter.go:273-285 | `saveImage` has an encoder for a format exactly when `ValidateFormat` accepts it |
| Validation.FormatIgnoresCase | converter/converter.go:292 | a format and its lower-cased form are validated and encoded alike |
| Validation.FormatExamples | converter/converter.go:291-297 | "JPG" and "Png" are accepted; "GIF" is rejected as "gif"; "png " is rejected, since nothing is trimmed |
| Validation.ValidatePageRange | converter/converter.go:300-316 | "" and "all" are accepted after lower-casing and trimming; a rejection reports the normalised expression |
| Validation.PatternIsGrammar | converter/converter.go:307-308 | the automaton accepts exactly the comma-separated terms (digits, or digits '-' digits), with leading `\s` allowed after each comma |
| Validation.ClausesRun | converter/converter.go:307-308 | the automaton's verdict on a clause list, from its start or after a comma, is the conjunction of the verdicts on the clauses |
| Validation.TermRun | converter/converter.go:307 | from the start state, the automaton accepts a comma-free string exactly when it is a term |
| Validation.SkipSpaces | converter/converter.go:307 | from the state after a comma, the automaton's verdict is the start state's verdict on the text without its leading `\s` |
| Validation.ValidatedRangeResolves | converter/converter.go:300-316 | with numbers unbounded, an expression that `ValidatePageRange` accepts resolves or fails with a page-bounds error, never with a format or page-number error |
| Validation.WellFormedClause | converter/converter.go:203-245 | every trimmed clause of a well-formed expression is a term that resolves or fails only on bounds |
| Validation.TermClause | converter/converter.go:209-247 | a term as a clause resolves or fails only on bounds |
| Validation.SelectionOkOrBounds | converter/converter.go:202-249 | when every non-blank clause resolves or fails on bounds, so does the clause list |
| Validation.SignedPageExample | converter/converter.go:238 | "+5" is refused by `ValidatePageRange` yet `parsePageRange` resolves it to page 5, because `Atoi` accepts a sign |
| Validation.SpaceBeforeCommaExample | converter/converter.go:203 | "1 ,2" is refused by `ValidatePageRange` yet resolves to pages 1 and 2, because every clause is trimmed |
| FilePaths.Clean | converter/converter.go:171 | the cleaned path is never empty, is rooted exactly when the input is, and is a single name element unchanged |
| FilePaths.JoinPath | converter/converter.go:171 | joining a non-empty directory and a name element gives the cleaned directory followed by the name; with no directory, the cleaned name |
| FilePaths.CleanKeepsName | converter/converter.go:171 | cleaning parent + "/" + name, for a name element, keeps the name as the last element after the cleaned parent |
| FilePaths.Dir | converter/converter.go:137 | the directory of a path is never empty, and it is "." for a path without '/' |
| FilePaths.DirOfJoin | converter/converter.go:137 | the directory of parent + "/" + name, for a name without '/', is the cleaned parent |
| FilePaths.Base | converter/converter.go:143 | the base name is never empty; it is what follows the last '/' once trailing slashes are removed, or "/" for a path of slashes only |
| FilePaths.Ext | converter/converter.go:144 | the extension is a suffix of the path that starts with the last '.' of the last element; it is empty only when that element has no '.' |
| FilePaths.LastSlashSplits | converter/converter.go:137 | a path is its part up to the last '/' followed by the part after it |
| Converter.OutputDirectory | converter/converter.go:134-138 | the output directory is never empty; it is the configured one, or else the input file's directory |
| Converter.FilePrefix | converter/converter.go:140-145 | the prefix is the configured one; without one, the prefix followed by the base name's extension is the base name |
| Converter.Extension | converter/converter.go:166-170 | "jpeg" becomes "jpg" and every other format is its own extension; the extension selects the same encoder as the format |
| Converter.PageSuffix | converter/converter.go:171 | "_page_", then for a page of at least 0 its decimal digits (three when padded, otherwise no leading zero), then "." and the extension |
| Converter.OutputPath | converter/converter.go:171 | with a non-empty directory and no '/' in the prefix or the extension, the path is the cleaned directory followed by the file name |
| Converter.FileNameExamples | converter/converter.go:171 | page 2 is named "doc_page_002.png", page 1234 "doc_page_1234.jpg" and page -5 "doc_page_-05.png" |
| Converter.DefaultNamesExample | converter/converter.go:134-171 | without an output directory or a prefix, page 2 of "/in/doc.pdf" in "jpeg" is saved as "/in/doc_page_002.jpg" |
| Converter.PagePaths | converter/converter.go:179 | the loop records one path per page |
| Converter.PagePathsAt | converter/converter.go:179 | the i-th recorded path is the path of the i-th page |
| Converter.PageSuffixInjective | converter/converter.go:171 | the page number can be read back from "_page_%03d.ext" |
| Converter.OutputPathInjective | converter/converter.go:171 | in a non-empty directory and with an extension without '/', different pages get different joined paths, whatever the prefix |
| Converter.PagePathInjective | converter/converter.go:166-171 | for a format with an encoder, different pages get different output paths |
| Converter.EncodableExtension | converter/converter.go:166-170 | the extension written for a format with an encoder holds no '/' |
| Converter.SaveImage | converter/converter.go:266-288 | saving succeeds exactly when the file can be created and the lower-cased format has an encoder; creation failure is reported first |
| Converter.PageOutcome | converter/converter.go:148-177 | a page fails to render exactly when the engine cannot render its index; it fails to save exactly when it renders but its path is unwritable or the format has no encoder |
| Converter.RenderAndSave | converter/converter.go:148-177 | one turn of the loop ends as `PageOutcome` says and, on success, names the file `PagePath` |
| Converter.FirstFailure | converter/converter.go:148-180 | the position of the first failed page: every page before it succeeded and the page at it failed |
| Converter.ConversionResult.constructor | converter/converter.go:84-88 | a new result holds the input file, no outputs, page count 0, no success and no error |
| Converter.Expected | converter/converter.go:83-185 | every report of a conversion is for its input file; it succeeded exactly when it holds no error; a success counts its output files, and a failure counts 0 pages |
| Converter.Rendered | converter/converter.go:147-184 | the loop's report is consistent in the same way, with at most one output file per page |
| Converter.Convert | converter/converter.go:83-185 | the method's final `ConversionResult` is `Expected`, and the returned error is the one recorded in it |
| Converter.ConvertPages | converter/converter.go:147-184 | the loop appends one path per saved page, stops at the first failure with its error, and otherwise sets the page count and success |
| Converter.RenderedSucceedsIff | converter/converter.go:147-184 | the loop succeeds exactly when every page renders and saves, and then reports every page's path in order and their number |
| Converter.RenderedFails | converter/converter.go:147-184 | a failed loop has saved exactly the pages before the failing one, reports 0 pages, and its error names that page |
| Converter.RenderedDistinct | converter/converter.go:147-179 | over strictly ascending pages the loop never saves two pages to the same path |
| Converter.ExpectedSteps | converter/converter.go:90-132 | a conversion that fails before the loop has no outputs and page count 0; its error is the first failing step's, in the order reading, opening, counting pages, resolving the page expression, creating the configured directory; otherwise its result is the loop's over the resolved pages |
| Converter.ConvertSucceedsIff | converter/converter.go:83-185 | a conversion succeeds exactly when every step before the loop and every page's render and save succeed; it then lists every selected page's path in ascending page order, with the page count and no error |
| Converter.FailedReport | converter/converter.go:83-185 | a failed conversion reports its error and page count 0; an early failure has no outputs; a page failure lists exactly the selected pages before the failing page, and its error names that page |
| Converter.OutputFilesDistinct | converter/converter.go:147-179 | no two output files of a conversion are the same path |
| Converter.UnsupportedFormatSavesNothing | converter/converter.go:173-177 | without an encoder for the format, a conversion lists no output file |
| Converter.ValidatedPagesResolve | converter/converter.go:119-124 | with numbers unbounded and an expression that `ValidatePageRange` accepts, an invalid page range can only be a bounds error |
| Converter.EmptyDocumentSucceeds | converter/converter.go:191-196 | a document without pages converts successfully to nothing when "" or "all" is asked for |

## Left out

- The PDFium engine: pool and instance set-up in `New` and `Close` (converter/converter.go:48-80), opening, page counting and rendering. `Environment` stands in for them: whether the document opens, its page count and the page indices that fail to render. Closing the document is left out too.
- `os.ReadFile`, `os.MkdirAll` and `os.Create`, and the PNG and JPEG encoders. `Environment` says whether the file is readable, whether the directory can be created and which paths cannot be written.
- The image data, JPEG quality and DPI. They are only handed to the encoder and the renderer.
- The text of errors. `Result.Error` (a string in Go) and the returned `error` are a `Failure` value naming the failing step, and `RangeError` names the parse error. The messages are not built.
- The regular-expression engine. The pattern is modelled by a hand-written automaton over Go's `\d` and `\s` classes. The error branch of `regexp.MatchString` cannot occur with this fixed, valid pattern.
- Go map iteration order and `sort.Ints`. `pageSet` is a boolean array indexed by page, and an ascending scan lists it. That gives the same slice that sorting the map's keys gives.
- GoStrings.Atoi: does not model 64-bit overflow. Every decimal string converts to its exact value.
- Validation.ValidatedRangeResolves: holds for numbers that fit in 64 bits. In Go, a validated expression with a larger number, such as "99999999999999999999", fails `strconv.Atoi` and reports "invalid page number" (converter/converter.go:215-222, 238-241). The same limit applies to Converter.ValidatedPagesResolve.
- GoStrings.ToLower: lowers ASCII letters only. No other character lowers to a digit, '-', ',', white space or a letter of "all", "png", "jpeg" or "jpg", so no decision changes; only the text of an echoed expression could differ.
- FilePaths.Clean: models '/'-separated paths only, not Windows volume names or separators.
- `saveImage` on a format without an encoder: the Go code creates (and leaves) the file before it reports the unsupported format. The model records only the failure.
- main.go: command-line parsing, its quality and DPI bounds checks, printing and exit codes.
