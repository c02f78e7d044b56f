# Lib2Vec Liberty scanning, cell classification and lookup tables

This project models three scripts of the Lib2Vec repository.

- `scripts/tesst.py` is the complete parser. It reads Liberty timing-library text with hand-written regular expressions and fills a name-to-cell dictionary. It then formats that dictionary for Lib2Vec with integer statistics.
- `scripts/test.py` is the optimized parser, plus its quick variant that keeps only the first cells.
- `scripts/test_utf8.py` is the ASAP7 electrical-similarity script. The model covers:
  - its line preprocessing;
  - its lookup-table reader;
  - its cell-type rule;
  - its input-condition generator;
  - its bilinear table interpolation.

## What is modelled

**Shared scanning**
- Comment removal (`Comments`): each line is cut at its first `//`, then `/*...*/` spans are deleted leftmost-shortest.
- Brace matching (`Braces`): from just after a header's `{`, find the `}` that brings the depth back to 0.
- The fixed regular expressions (`Patterns`) are written as matchers:
  - `cell ( name ) {`;
  - `key : value ;`;
  - `key : "value"`;
  - `voltage_map (...)`;
  - `operating_conditions (...) {...}`;
  - `re.search`, a leftmost search;
  - `re.finditer`, successive leftmost matches.
- The cell loop both parsers share (`CellScan`) visits every header in text order. A cell without a body is skipped, and a repeated name overwrites the earlier entry. Python dictionaries are ordered dictionaries (`OrderedDicts`): an overwrite keeps the key's first position.
- `defaultdict(int)` counters are histograms (`Histograms`).

**The two parsers**
- Each parser is a class with a library-information field and a cell-dictionary field, updated by its methods:
  - `CompleteParser.CompleteLibertyParser`;
  - `OptimizedParser.OptimizedLibertyParser`.
- The complete parser also keeps the count of cell headers it has reached.
- Python's `float()` on a string is an abstract partial function `FloatParser` (`string -> Option<real>`). It is applied to the stripped text, because `float()` ignores surrounding whitespace.

**The characterisation script**
- `LookupTables`, `Interpolation`, `InputConditions`, `Preprocess` and `Asap7Taxonomy` model the characterisation script's pure rules.
- They also model its loops, as methods proved against specification functions.

## Model

| member | source | states |
|---|---|---|
| Comments.CutLineComment | scripts/tesst.py:107-109 | the line is cut exactly at its first `//`: the result is a prefix of the line without `//`, and the whole line when it has none |
| Comments.RemoveComments | scripts/test.py:57-79 | the line loop and the block-comment substitution compute `CleanText` of the input |
| Comments.RemoveCommentsReporting | scripts/tesst.py:90-121 | the complete scanner's remover gives `CleanText` of the input, and raises exactly when the input is empty, because its size report divides by the input's length |
| Comments.LineStageKeepsLines | scripts/tesst.py:99-112 | the line stage keeps the number of lines, and line k of its result is line k of the input cut at its first `//` |
| Comments.CutIgnoresQuotes | scripts/tesst.py:107-109 | a line `a//b` with no `/` in `a` is cut to `a`, whatever quotes `a` and `b` hold: quotes give no protection |
| Comments.BlockCommentDeleted | scripts/tesst.py:116 | text `k/*c*/t`, with no earlier `/*` in k and no `*/` in c, loses exactly the comment |
| Comments.UnterminatedKept | scripts/tesst.py:116 | a `/*` with no `*/` after it is left in place with the rest of the text |
| Comments.NoSlashUnchanged | scripts/tesst.py:90-121 | text without `/` passes through comment removal unchanged |
| Comments.CleanTextSubseq | scripts/tesst.py:90-121 | comment removal only deletes characters: the output is a subsequence of the input |
| Comments.StripBlockSubseq | scripts/test.py:77 | the non-greedy block-comment deletion yields a subsequence of its input |
| Braces.CloseFrom | scripts/tesst.py:213-231 | the position found is the first from q at which the depth is 0 |
| Braces.DepthPositive | scripts/tesst.py:219-228 | a depth that starts at 1 and has not reached 0 is positive: the loop's `brace_count > 0` test tracks the scan exactly |
| Braces.NoBodyIff | scripts/tesst.py:213-231 | there is no body exactly when the depth, from 1, stays positive up to the end of the text |
| Braces.BodyBalanced | scripts/tesst.py:213-231 | a body is followed by `}`; it has as many `{` as `}`; no prefix of it has more `}` than `{`; braces inside quotes count |
| Braces.ExtractBody | scripts/test.py:104-116 | the brace loop, running at most to the end of the text, returns `content[end_pos:pos-1]` exactly when the depth returns to 0, and otherwise `None` |
| Patterns.MatchGroupCount | scripts/tesst.py:174-179 | every match captures as many groups as its pattern has |
| Patterns.SearchFirst | scripts/tesst.py:127 | `re.search` returns the leftmost match: none starts between the search start and the match, and there is none at all when it returns `None` |
| Patterns.SearchFinds | scripts/tesst.py:140 | a match at j with none before it is the one `re.search` returns |
| Patterns.FindAllMatches | scripts/tesst.py:177-179 | every element `re.finditer` yields is a match at its own start, at or after the search start, and each ends before the next begins |
| Patterns.StripGroup | scripts/tesst.py:178 | the stripped `\s*([^)]+)` group equals the stripped text between the delimiters |
| CellScan.CellHeaders | scripts/tesst.py:174-179 | every header found by `re.finditer` captures exactly one group, the name, and ends inside the text |
| CellScan.NoHeadersNoCells | scripts/tesst.py:184-186 | a text without cell headers stores no cell |
| CellScan.CellKeptIff | scripts/tesst.py:189-209 | a name is in the dictionary after the loop exactly when it was there before or one of its headers has a body |
| CellScan.CellLastWins | scripts/tesst.py:203 | a repeated name keeps the value made from its last header that has a body |
| CellScan.CellStep | scripts/tesst.py:198-203 | one loop turn stores the parsed body under the header's name when the body exists, and changes nothing otherwise |
| CompleteCells.ParsePin | scripts/tesst.py:295-344 | the pin keeps its name; an absent attribute keeps its default: no direction or function, capacitance 0.0, and no max_transition, max_capacitance or min_capacitance; a present one is set |
| CompleteCells.PinAttributeValues | scripts/tesst.py:311-334 | a present `capacitance`, `max_transition`, `max_capacitance` or `min_capacitance` holds the parsed value, or 0.0 when `float()` rejects it; a present `direction` or `function` holds the quote-stripped text |
| CompleteCells.FloatAttribute | scripts/tesst.py:311-334 | `None` exactly when the attribute is absent; otherwise the parsed value, or 0.0 when `float()` rejects it |
| CompleteCells.ExtractPins | scripts/tesst.py:279-293 | the pin loop with its brace scans computes the pin dictionary in which every assignment of the loop is made in order |
| CompleteCells.PinKeptIff | scripts/tesst.py:291 | a pin name is in the dictionary exactly when one of its headers has a non-empty body |
| CompleteCells.PinLastWins | scripts/tesst.py:291-292 | the last header with a non-empty body decides a pin's record |
| CompleteCells.QuotedFunction | scripts/tesst.py:273-275 | the cell function is present exactly when some `function : "..."` occurs in the body, and then it is the non-empty group of the first one |
| CompleteCells.ParseSingleCell | scripts/tesst.py:233-277 | the cell parse with its pin loop gives the cell record of the body |
| CompleteCells.CellNumbers | scripts/tesst.py:249-262 | the cell keeps its name; area and leakage power are 0.0 when absent; a present area that `float()` accepts is its value |
| CompleteCells.CellPinsValid | scripts/tesst.py:270 | every pin dictionary is a well-formed ordered dictionary |
| LibraryInfo.BasicParamStored | scripts/tesst.py:138-148 | a listed parameter that occurs is stored as a float when `float()` accepts its stripped text and as that text otherwise; one that does not occur keeps its old value |
| LibraryInfo.CompleteParamStored | scripts/tesst.py:132-148 | the same holds for the ten parameters of the complete parser after the voltage and operating-condition entries are added |
| LibraryInfo.SharedParamsAgree | scripts/test.py:183-196 | the optimized parser's six parameters are the complete parser's first six and are stored the same way |
| LibraryInfo.ParamsDistinct | scripts/tesst.py:132-136 | the parameter names are distinct and differ from the other library keys |
| LibraryInfo.UnparsableVoltageDropped | scripts/tesst.py:156-160 | a voltage that `float()` rejects leaves no entry under its name unless another `voltage_map` parses |
| LibraryInfo.ParsedVoltageStored | scripts/tesst.py:154-158 | a parsed voltage is stored under its stripped name unless a later `voltage_map` of that name parses |
| LibraryInfo.ReadParams | scripts/tesst.py:138-148 | the parameter loop computes the library information with one assignment per occurring parameter, in list order |
| CompleteParser.ReadVoltageTable | scripts/tesst.py:151-160 | the voltage loop computes the voltage table of the matches |
| CompleteParser.CompleteLibertyParser.constructor | scripts/tesst.py:18-28 | the new parser has no library information, no cells and no processed cells |
| CompleteParser.CompleteLibertyParser.ExtractLibraryInfo | scripts/tesst.py:123-166 | the library information becomes the name, the ten parameters, the voltage table and the operating condition of the text; the cells and the counter are unchanged |
| CompleteParser.CompleteLibertyParser.ExtractCells | scripts/tesst.py:170-211 | the cells become the old cells updated by the cells of the text; the counter is the number of headers, or unchanged when there are none; the library information is unchanged |
| CompleteParser.CompleteLibertyParser.FormatForLib2Vec | scripts/tesst.py:346-434 | the result is the formatting of the current library information and cells |
| CompleteParser.CompleteLibertyParser.ParseLibertyText | scripts/tesst.py:36-88 | an empty text raises in comment removal, before anything is extracted, and leaves the parser unchanged; any other text goes through comment removal, library information, cells and formatting, in that order, and the header counter becomes the number of cell headers of the cleaned text when there are any |
| CompleteParser.ScanCells | scripts/tesst.py:172-209 | the header scan and the cell loop give the old dictionary updated by the cells of the text, still well formed, and the number of headers found |
| CompleteParser.ReadCells | scripts/tesst.py:189-209 | the cell loop computes the old dictionary updated by the cells of the text |
| CompleteParser.FormatAll | scripts/tesst.py:372-423 | the formatting loop with its running counters and sums computes the formatted data |
| CompleteParser.FormatPinList | scripts/tesst.py:399-408 | the pin loop formats each pin in dictionary order |
| CompleteParser.StatisticsStep | scripts/tesst.py:374-396 | one more cell adds one to its pin count, to its cell type and, when it has a function, to its category; the arc totals grow by its arc counts |
| CompleteParser.FormatStatistics | scripts/tesst.py:372-423 | one formatted cell per parsed cell, in dictionary order; the pin-count and cell-type counts each sum to the number of cells; the function-category counts sum to at most that, and never include `unknown` |
| CompleteParser.FormatCellCounts | scripts/tesst.py:392-410 | a cell's pin count is its number of pins, and its timing and power arc totals are the sums over its pins |
| CompleteTaxonomy.FirstPatternFrom | scripts/tesst.py:470-489 | the index found is the first pattern from i that occurs in the name; none found means none occurs |
| CompleteTaxonomy.InferCellType | scripts/tesst.py:464-500 | the type of the first pattern, in the classifier's order, found in the lower-cased name; the size class of the pin count when none is found |
| CompleteTaxonomy.InferCellTypeFallback | scripts/tesst.py:492-500 | the result is a size class exactly when no pattern occurs in the name, and then it is BASIC for at most 2 pins, SIMPLE for at most 4, MEDIUM for at most 8, COMPLEX above |
| CompleteTaxonomy.InferCellTypeShadowed | scripts/tesst.py:470-489 | NAND, NOR and XOR are never returned |
| CompleteTaxonomy.InferCellTypeShadowedNames | scripts/tesst.py:470-489 | a name with `nand` is AND, a name with `nor` or `xor` is OR |
| CompleteTaxonomy.CategorizeFunction | scripts/tesst.py:436-462 | `unknown` exactly for a missing or empty function, and otherwise one of the fixed gate labels |
| CompleteTaxonomy.XorUnreachable | scripts/tesst.py:436-462 | `xor_gate` is never returned |
| CompleteTaxonomy.NegatedGatesRecognised | scripts/tesst.py:444-452 | a function with `nand` is `nand_gate`; one with `nor` but no `and` is `nor_gate` |
| OptimizedParser.ReadPins | scripts/test.py:144-155 | the pin loop computes one assignment per pin header, in text order |
| OptimizedParser.PinKeptIff | scripts/test.py:147-155 | every pin header makes a pin, whatever its body: a name is in the dictionary exactly when some header has it |
| OptimizedParser.PinFromLastHeader | scripts/test.py:150-155 | a pin's record comes from its last header; its direction is the window attribute after that header |
| OptimizedParser.ParseSingleCell | scripts/test.py:122-162 | the cell parse with its pin loop gives the cell record of the body |
| OptimizedParser.EntryConstants | scripts/test.py:150-155 | every pin has capacitance 0.0 and an empty timing list, and is stored under its own name |
| OptimizedParser.EntryLastWins | scripts/test.py:118 | a repeated cell name keeps the record parsed from its last header with a body |
| OptimizedParser.StoreEntry | scripts/test.py:103-120 | one turn of the cell loop, with the inline brace scan, stores the cell when the depth returns to 0 |
| OptimizedParser.ReadEntries | scripts/test.py:99-120 | the cell loop computes the old dictionary updated by the cells of the text |
| OptimizedParser.Limit | scripts/test.py:296-302 | a positive limit below the number of cells keeps the first `max_cells` cells in insertion order with their records; a negative limit keeps the Python slice; a falsy limit, or one not exceeded, leaves the dictionary unchanged |
| OptimizedParser.FormatDataStatistics | scripts/test.py:211-228 | one formatted cell per cell, in dictionary order, each with its pin names in insertion order; the pin-count counts sum to `total_cells`; the function counts never include `unknown` |
| OptimizedParser.FormatLoop | scripts/test.py:211-228 | the formatting loop with its counters computes the formatted data |
| OptimizedParser.EntryStatisticsStep | scripts/test.py:212-217 | one more cell adds one to its pin count and, when it has a function, to its category |
| OptimizedParser.OptimizedLibertyParser.constructor | scripts/test.py:11-14 | the new parser has no library information and no cells, and the given cell limit |
| OptimizedParser.OptimizedLibertyParser.ExtractLibraryInfo | scripts/test.py:174-196 | the library information becomes the name and the six parameters of the text; the cells are unchanged |
| OptimizedParser.OptimizedLibertyParser.ExtractCells | scripts/test.py:81-120 | the cells become the old cells updated by the cells of the text, then limited as the quick parser does |
| OptimizedParser.OptimizedLibertyParser.FormatForLib2Vec | scripts/test.py:198-230 | the result is the formatting of the current information and cells |
| OptimizedParser.OptimizedLibertyParser.ParseLibertyText | scripts/test.py:16-55 | comment removal, library information, cells and formatting, in that order |
| AttributeWindows.SimpleAttribute | scripts/test.py:164-172 | a value is found exactly when the attribute pattern matches inside the 1000-character window; nothing is found at or past the end of the text; when the rest of the text fits in the window it is the attribute of that rest |
| AttributeWindows.SimpleAttributeFirst | scripts/test.py:164-172 | the first attribute match of the text after `start_pos` is found when it ends inside the window, even if it begins later than the pin |
| AttributeWindows.SimpleAttributeSound | scripts/test.py:164-172 | whatever the window yields is the stripped value of an attribute match of the text that starts after `start_pos` and ends inside the window |
| OptimizedTaxonomy.InferCellType | scripts/test.py:254-283 | one of the twelve labels; AND exactly when the lower-cased name holds `and`; MUX and SEQ only for names with `mux`, or with `dff` or `latch`; a size class is BASIC exactly for at most 3 pins |
| OptimizedTaxonomy.InferCellTypeShadowed | scripts/test.py:254-283 | XOR, NAND and NOR are never returned |
| OptimizedTaxonomy.InferCellTypeFallback | scripts/test.py:277-283 | a name that passes no name test is BASIC for at most 3 pins, MEDIUM for at most 6, COMPLEX above |
| OptimizedTaxonomy.CategorizeFunction | scripts/test.py:232-252 | `unknown` exactly for a missing or empty function, and otherwise one of the fixed labels |
| OptimizedTaxonomy.CategorizeFunctionOrder | scripts/test.py:239-246 | a `nand` function is `and_gate`; `!` anywhere without `and`/`or` is `inverter`; `xor_gate` is never returned |
| Histograms.HistogramCounts | scripts/tesst.py:375-376 | a key is in the counter exactly when it was counted, and it holds its number of occurrences |
| Histograms.HistogramTotal | scripts/tesst.py:375-376 | the counts of a counter add up to the number of elements counted |
| OrderedDicts.PutAllLast | scripts/tesst.py:203 | after a sequence of assignments, a key holds the value of its last assignment |
| OrderedDicts.Take | scripts/test.py:300-301 | `dict(list(d.items())[:n])`: the first n keys with their values |
| Preprocess.KeptLines | scripts/test_utf8.py:117-133 | blank lines, comment-start lines, lines with a quote and lines without a colon are unchanged |
| Preprocess.RewrittenLines | scripts/test_utf8.py:125-131 | any other line `key:rest`, cut at its first colon, becomes `key:"value"` with the stripped rest as value, and is unchanged when that value is empty |
| Preprocess.SameLines | scripts/test_utf8.py:112-135 | the result has as many lines as the input, and each is the rewrite of the input's line |
| Preprocess.PreprocessedIdempotent | scripts/test_utf8.py:112-135 | preprocessing twice is preprocessing once |
| Preprocess.RewriteLine | scripts/test_utf8.py:126-131 | the split at the first colon and the quoting of a non-empty unquoted stripped value compute the rewrite of the line |
| Preprocess.ProcessOneLine | scripts/test_utf8.py:119-133 | one loop turn keeps a skipped line or a non-candidate line and rewrites a candidate, giving the line's rewrite |
| Preprocess.PreprocessLibertyContent | scripts/test_utf8.py:112-135 | the line loop computes the preprocessed text |
| LookupTables.FloatListItems | scripts/test_utf8.py:333 | the list comprehension succeeds exactly when every item is accepted, and then holds each item's value in order |
| LookupTables.Rows | scripts/test_utf8.py:344-351 | the rows are at most the lines and never empty |
| LookupTables.RowsFailureSticks | scripts/test_utf8.py:346-351 | a rejected entry in the first lines fails the whole values field |
| LookupTables.CollectRows | scripts/test_utf8.py:345-351 | the row loop computes the rows of the lines, or fails when `float()` raises |
| LookupTables.ParseTable | scripts/test_utf8.py:323-356 | a failed field leaves itself and every later field empty while earlier fields keep what they parsed; an absent attribute gives an empty field |
| LookupTables.ParseLookupTable | scripts/test_utf8.py:313-356 | the same with `float(x.strip())` for every entry |
| LookupTables.RaggedRows | scripts/test_utf8.py:340-351 | rows are not checked against each other or the axes: lines `a, b` and `c` give rows of two entries and of one |
| Asap7Taxonomy.DetermineCellType | scripts/test_utf8.py:358-423 | the result is the base name or one of the gate labels; a base that holds none of the gate names is returned as it is; a base with INV is INV, and one with BUF but not INV is BUF |
| Asap7Taxonomy.BaseName | scripts/test_utf8.py:374 | the base is the longest prefix of the name before its first lower-case `x` |
| Asap7Taxonomy.FirstGateDecides | scripts/test_utf8.py:377-423 | the first gate name found decides: INV and BUF as they are, the others with the first of 2, 3, 4 in the base; with none the base itself; the function argument makes no difference |
| Asap7Taxonomy.ExclusiveGatesUnreachable | scripts/test_utf8.py:417-420 | XOR, XOR2, XNOR and XNOR2 are never returned |
| Asap7Taxonomy.ExclusiveGatesShadowed | scripts/test_utf8.py:399-416 | an XOR2 base without an earlier gate is OR2, and an XNOR2 base NOR2 |
| Asap7Taxonomy.XorCellName | scripts/test_utf8.py:374-416 | an `XOR2x...` cell is OR2 |
| Asap7Taxonomy.XnorCellName | scripts/test_utf8.py:374-398 | an `XNOR2x...` cell is NOR2 |
| Asap7Taxonomy.FlipFlopCellName | scripts/test_utf8.py:421-423 | a `DFFHQNx...` cell matches no gate and is its base `DFFHQN` |
| InputConditions.WidenIf | scripts/test_utf8.py:447-452 | a non-empty axis widens the range to include each of its entries and its minimum, never lowers the top, and an empty axis leaves the range unchanged |
| InputConditions.AxisRangeBounds | scripts/test_utf8.py:439-452 | the range bounds every entry of every axis; its top is at least 0; both ends are entries when set above the start; the bottom is infinite exactly when every axis is empty |
| InputConditions.RangesCoverDelayTables | scripts/test_utf8.py:442-452 | every slew and load of every delay and transition table of every arc lies in the computed ranges |
| InputConditions.PowerTablesIgnored | scripts/test_utf8.py:442-452 | arcs that differ only outside the four delay and transition tables give the same ranges |
| InputConditions.ScanRanges | scripts/test_utf8.py:439-452 | the nested range loops compute the ranges over all delay and transition tables |
| InputConditions.ProductLength | scripts/test_utf8.py:465-468 | the product has `num_slew_points * num_load_points` pairs |
| InputConditions.ProductAt | scripts/test_utf8.py:465-468 | the pair of slew i and load j is at position `i * num_load_points + j`: slew-major order |
| InputConditions.Conditions | scripts/test_utf8.py:465-468 | the nested pair loops compute the slew-major product |
| InputConditions.GenerateInputConditions | scripts/test_utf8.py:425-471 | the result is the product of the sampled slews and loads over the computed ranges, of length `num_slew_points * num_load_points` |
| Interpolation.Lower | scripts/test_utf8.py:498-500 | the lower index is the least k that is the last index or has `index[k+1] >= x`, and every entry from 1 to k is below x |
| Interpolation.Upper | scripts/test_utf8.py:501 | the upper index is the lower one or the next, and equals the lower one exactly at the last index |
| Interpolation.LowerIsLeast | scripts/test_utf8.py:498-500 | the search stops at k exactly when k is `Lower` |
| Interpolation.ClampAbove | scripts/test_utf8.py:499-501 | a value above every entry gives lower and upper index both the last index |
| Interpolation.Div | scripts/test_utf8.py:513-527 | division fails exactly for a zero divisor, and otherwise gives the quotient |
| Interpolation.At | scripts/test_utf8.py:511-524 | the lookup fails exactly for an index outside the rows, and otherwise gives the entry |
| Interpolation.InterpolateTimingValue | scripts/test_utf8.py:473-536 | the two bracket loops and the blend compute the interpolated value, with 0.0 for the falsy and failing cases |
| Interpolation.ExactAtGridPoints | scripts/test_utf8.py:510-532 | on a rectangular table with strictly increasing axes, querying `(index_1[i], index_2[j])` gives `values[i][j]` |
| Interpolation.ExtrapolatesBelow | scripts/test_utf8.py:498-517 | below the first entry of a strictly increasing axis the bracket is 0, 1 and the weight is negative |
| Interpolation.ExtrapolatedValue | scripts/test_utf8.py:515-517 | a one-column table queried below its slews gives the linear blend of its first two rows with a negative weight |
| Interpolation.ZeroWidthBracket | scripts/test_utf8.py:513-536 | a zero-width slew bracket raises and the lookup gives 0.0 |
| Interpolation.MissingRowFallback | scripts/test_utf8.py:534-536 | a table without a row at the lower slew index raises and the lookup gives 0.0 |
| Interpolation.EmptyFallback | scripts/test_utf8.py:485-493 | a table without values or without an axis gives 0.0 |

## Left out

- File reading, encoding fallbacks, JSON saving, `print_statistics`, logging and progress prints are left out. `parse_liberty_file` is modelled on text that has already been read. One print does a computation that matters: the complete remover's size report (`scripts/tesst.py:117-119`) divides by the length of the text, so an empty text raises. That failure is modelled as `Comments.RemoveCommentsReporting` returning `None`; the optimized remover has no such report.
- The signal-based timeout of `scripts/tesst.py` is left out because it is operating-system plumbing.
- The `liberty` package object model is not part of this model. This covers:
  - `extract_cell_information`, `_extract_single_cell_info`, `_extract_timing_arcs` and `_extract_timing_tables` of `scripts/test_utf8.py`;
  - `utils/liberty_parser.py`.
- What the model takes as inputs instead:
  - the arcs of a cell are `InputConditions.TimingArc` records, mirroring the dictionary `_extract_timing_arcs` builds;
  - the attribute texts of a table object are `LookupTables.RawTable`;
  - the cell dictionary of the characterisation script is the list of each cell's `timing_arcs`, in dictionary order.
- Floating point is not modelled:
  - `float()` string parsing is the abstract `FloatParser`;
  - interpolation arithmetic is over exact reals, without rounding, NaN or infinities;
  - the area minimum, maximum and mean and the percentages of the complete parser's statistics are left out.
- InputConditions.GenerateInputConditions: `np.log`, `np.linspace` and `np.exp` are the abstract `sample` parameter. The contract only requires that `sample` returns as many points as asked for. Nothing is stated about where the points lie. The infinite `min_slew` of a library without tables is `None` in the model, where numpy would take its logarithm.
- Interpolation.InterpolateTimingValue: the check `not table` can never fire for a parsed table, because the dictionary always holds its three keys. The model takes a `LookupTable` and starts at the `values`/axis checks.
- Strings.IsWs: whitespace is the space and the characters `\t` to `\r`. The separators `\x1c` to `\x1f`, which `str.strip()`, `str.split()` and `\s` also count as whitespace, are not whitespace here, and nor are non-ASCII spaces such as `\x85` and `\xa0`.
- `lower()` is ASCII-only. Unicode case mapping is not modelled.
- The exception path of `_extract_cells_complete` (`scripts/tesst.py:204-206`) cannot be reached. Every `float()` in `_parse_single_cell_complete` is guarded, so a body that was found is always stored.
- `QuickTestParser` in `scripts/tesst.py:599-631` is a driver variant that only limits the number of cells. It is not modelled; the optimized parser's limit is modelled as `OptimizedParser.Limit`.
- The inline brace loop of `scripts/test.py:104-116` is the same loop as `_extract_cell_body`. It is modelled once, as `Braces.ExtractBody`. Its exit state gives `content[end_pos:pos-1]`, the same body.
- The test `value.startswith('"') and value.endswith('"')` of `preprocess_liberty_content` is modelled as `Preprocess.InQuotes`, but it can never hold: candidate lines contain no `"`.
- `re.findall` is used only for counts and the voltage table; it is modelled as the list `re.finditer` yields.
- Behaviour of the code worth noting:
  - comment removal and brace matching do not track quotes;
  - table shape is not checked;
  - interpolation extrapolates linearly below the first entry of an axis;
  - a slew above all entries is clamped.
