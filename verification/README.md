# MobilityDuck tools and loader: verified model

A Dafny model of four parts of MobilityDuck, with proofs of what each is for.

* **The expected-output rewriter** (`scripts/update_test_expected.py`) reads a test run's log, finds the
  failing queries, and splices what each returned into the test files, bottom to top, round after round until
  the run passes. `FailureLog` models the log parser, `ExpectedBlocks` one file's edits, `ReadBack` what the
  edited file holds, `UpdateAll` the rounds over the files, and `Convergence` why the rounds end.
  The in-place edits are proved equal to one simultaneous rewrite of the original lines, for any fixes with
  non-blank results and lines from 1 on: blocks may grow, shrink, collide, or contain one another's separators.
* **The SQL declaration scanner and coverage audit** (`scripts/parity-audit.py`): comment stripping and the
  top-level comma splitter (`SqlScan`), the matcher of declarations (`Declarations`), the extraction of argument
  types (`SignatureTypes`), and the bucketing with its accounts (`Coverage`).
* **The TemporalParquet metadata** (`tools/temporal_parquet.py`): the codec, whose round trip is to a canonical
  form (`TemporalMeta`), and the coverings, the writer and the verifier (`CoveringCheck`).
* **The once-only set-up of the extension** (`src/mobilityduck_extension.cpp`): the interleaved steps of any
  number of threads through two configure functions and the initialisation block (`LoadOnce`).

`Text` holds the few string operations all of them use, and `Lines` those on lists of lines.

Loops of the source are methods with loops, proved equal to a specification function; the properties are then
lemmas about that function. The test files on disk and the column metadata, which the source changes in place,
are fields of the classes `UpdateAll.TestTree` and `CoveringCheck.Column`. Test runs, the outcome of calls into
the file system or MEOS, and the columns of a Parquet file are parameters. The header of a failure follows the
pattern at line 77 of `scripts/update_test_expected.py`, which is stricter than the description at its line 34.

Some promises hold only under a condition, and the condition is proved exact:

* A log gives the printed failures back exactly when no result starts with a line that is all `=`
  (`FailureLog.PrintThenParseExact`): such lines are taken for the separator.
* After the edits, the search from a query's shifted line finds the query's separator exactly when the query is
  clear (`ReadBack.FixedFindsItsOwn`): where a block shrinks below a query that lies in it, the query is lost, as
  in the example of `ReadBack.QueryLost`.
* What a round writes is read back line for line exactly when no block was put behind a separator that ends the
  file without a newline (`ReadBack.RereadExact`): such a block is glued to the separator.
* The verifier accepts a written file exactly when the coverings given by the caller are held by the file
  (`CoveringCheck.Write`); coverings the writer derives itself are always accepted.

## Model

| member | source | states |
|---|---|---|
| Text.StripMeans | scripts/update_test_expected.py:77-125 | Stripping leaves a text with solid ends exactly where that stands alone between blanks |
| Text.DecimalMeans | scripts/update_test_expected.py:83 | A number's last digit counts one, and what is before it ten times as much |
| Text.WordChars | scripts/parity-audit.py:134-144 | `\w` is the letters, the digits and the underscore |
| Text.Spaces | scripts/parity-audit.py:134-144 | `\s` among the ASCII characters is the blanks, line breaks and separators |
| Text.LowerMeans | scripts/parity-audit.py:118 | Lower case is the one casing of a text, letter by letter, that holds no capital |
| Text.LowerSame | scripts/parity-audit.py:335-369 | Two names have one lower case exactly when they are the same letter by letter, up to casing |
| FailureLog.ParseFailures | scripts/update_test_expected.py:70-109 | For every text the nested loops return the reports of the one well-formed log that its lines are |
| FailureLog.ReadEntry | scripts/update_test_expected.py:86-107 | Past a header the scan moves on, and finds the block and the end of the item, or runs to the end of the log |
| FailureLog.SkipBars | scripts/update_test_expected.py:92-95 | The separator loop passes exactly the run of non-empty all-`=` lines |
| FailureLog.ReadBlock | scripts/update_test_expected.py:96-99 | The block is the lines up to the first blank one or the end |
| FailureLog.HeaderRoundTrip | scripts/update_test_expected.py:77-83 | The greedy header match recovers any non-empty path, colons and all, and its line number, between any blank padding |
| FailureLog.HeaderMeans | scripts/update_test_expected.py:77-83 | The pattern matches exactly the lines that open as a header, and of all the paths a line can be read with it takes the longest |
| FailureLog.LexMeans | scripts/update_test_expected.py:77-97 | The parser's four tests, said of the characters of a line: it opens as a header, is `Actual result:` or a run of `=` between blanks, or is blank |
| FailureLog.EveryLogOneWay | scripts/update_test_expected.py:76-107 | Any lines whatever are exactly one well-formed log, and `Decompose` is it: the parser is total and unambiguous |
| FailureLog.ParseLogText | scripts/update_test_expected.py:70-109 | Parsing the text of a well-formed log gives its reports in order |
| FailureLog.ParserUndoesPrinter | scripts/update_test_expected.py:70-109 | Parsing undoes printing for any filler, noise and separators a log of the failures may have |
| FailureLog.PrintThenParse | scripts/update_test_expected.py:31-38 | A printed log is parsed as its failures, less the first result lines that are all `=`: with an expected result before each, and any lines before, between and behind, but no stray header before a report and no stray marker before a report's own |
| FailureLog.PrintThenParseExact | scripts/update_test_expected.py:92-99 | The failures printed are the failures parsed exactly when no result starts with a line that is all `=` |
| FailureLog.ParsedBlocksLie | scripts/update_test_expected.py:96-107 | On every log the blocks are non-blank contiguous runs, maximal, pairwise disjoint and in log order |
| ExpectedBlocks.Sorted | scripts/update_test_expected.py:119 | The fixes are taken from the largest line down, and none is lost or added |
| ExpectedBlocks.SortedIsStable | scripts/update_test_expected.py:119 | Fixes of one line keep their order, as a stable reverse sort leaves them |
| ExpectedBlocks.FirstSeparator | scripts/update_test_expected.py:120-127 | The search gives the first of twenty lines from the query's that is four dashes between blanks, and none exactly when none of them is |
| ExpectedBlocks.ZeroIsFirstLine | scripts/update_test_expected.py:120-140 | A fix at line 0 is the one at line 1 with a window one line shorter, unless the last line is a separator: then the lines the file starts with are replaced |
| ExpectedBlocks.DescendingRefines | scripts/update_test_expected.py:118-140 | Fixes made from the largest line down, each on the lines the last one left, are one simultaneous rewrite of the original |
| ExpectedBlocks.InPlaceIsSimultaneous | scripts/update_test_expected.py:118-140 | For any fixes, however their blocks grow, shrink, collide or nest, `fix_file` is the simultaneous rewrite |
| ExpectedBlocks.WonIffResolved | scripts/update_test_expected.py:122-140 | A separator has a winning fix exactly when some fix's search ends there |
| ExpectedBlocks.WinnerRule | scripts/update_test_expected.py:119-140 | Among the fixes of one separator the smallest line wins, and among equal lines the last in the list |
| ReadBack.RewriteLength | scripts/update_test_expected.py:138-140 | The file grows by the new blocks less the old ones |
| ReadBack.LinesSurvive | scripts/update_test_expected.py:118-140 | Every line outside the replaced blocks survives at its shifted place, and the order is kept |
| ReadBack.FindsItsOwn | scripts/update_test_expected.py:120-127 | The search from a query's new place finds the query's own separator exactly when the query is clear: not in a replaced block, or in one put back with enough separator-free lines below |
| ReadBack.QueryLost | scripts/update_test_expected.py:118-140 | A concrete file and two fixes: the block around the second query becomes empty, and the search from its shifted line misses its separator |
| ReadBack.FixedReadsBack | scripts/update_test_expected.py:118-140 | After `fix_file`, the winner's lines stand behind each separator a fix resolves to, at its place shifted by the net growth above it |
| ReadBack.FixedFindsItsOwn | scripts/update_test_expected.py:118-140 | The search from a query shifted by the net growth above it ends at its own separator exactly when the query is clear |
| ReadBack.OutsideIsClear | scripts/update_test_expected.py:118-140 | Queries that are in no block of another fix are clear, and no such block holds another's separator |
| ReadBack.AgreeingReadsBack | scripts/update_test_expected.py:118-140 | When the fixes of a separator agree and the queries are clear, every fix reads back from its shifted line |
| ReadBack.ReapplyingChangesNothing | scripts/update_test_expected.py:112-140 | Making the shifted fixes again leaves the file as it is, also where fixes collide and disagree, or find no separator |
| ReadBack.RereadExact | scripts/update_test_expected.py:115-146 | Reading the written file gives the lines that were left exactly when nothing was put behind an unterminated last separator |
| Lines.ReadWrite | scripts/update_test_expected.py:115-116 | A list of lines survives `writelines` and `readlines` exactly when all but its last line end in their only newline |
| ExpectedBlocks.RaisesOnlyWithoutLines | scripts/update_test_expected.py:120-127 | A fix raises exactly when it is at line 0, where the index is -1, of a file without lines |
| ExpectedBlocks.NumberedNeverRaise | scripts/update_test_expected.py:118-140 | Fixes from line 1 on never raise, and are made as the theorems about them say |
| UpdateAll.TestTree.ReplaceBlock | scripts/update_test_expected.py:119-140 | Search, scan and splice are the specified fix, at every line, with line 0 taken from the end of the file as Python does |
| UpdateAll.TestTree.FixFile | scripts/update_test_expected.py:112-146 | The loop of sorted splices leaves the specified text in that file and no other; a missing file, or a fix that raises, changes nothing |
| UpdateAll.TestTree.FixAllFiles | scripts/update_test_expected.py:167-173 | Grouping by file and fixing each in turn is the specified round, up to the first exception |
| UpdateAll.TestTree.UpdateAll | scripts/update_test_expected.py:149-176 | For every runner the outcome, exceptions included, and the files left are those of the specified rounds, and have a history |
| UpdateAll.RoundsAreHistory | scripts/update_test_expected.py:149-176 | An outcome is reached exactly by a history: each run before the last failed with wrong results, whose files were fixed; the last passed, or failed without any, or could not be fixed; or the rounds ran out |
| UpdateAll.FixFilesMeans | scripts/update_test_expected.py:167-173 | A round fixes all failing files, or stops at the first that is missing or raises, with exactly those before it fixed |
| UpdateAll.FixesInOrder | scripts/update_test_expected.py:168-170 | The fixes of a file are those of its failures, one each, in log order |
| UpdateAll.PathsInOrder | scripts/update_test_expected.py:168-172 | Each failing file is taken once, in the order of first appearance |
| UpdateAll.FixFilesEach | scripts/update_test_expected.py:167-173 | A round without an exception fixes each failing file once, with its own fixes in log order, and leaves the others alone |
| UpdateAll.TrueOnlyIfLastRunPassed | scripts/update_test_expected.py:150-154 | True is returned only if a run within the bound passed on the very files that are left |
| Convergence.FixedIsPatched | scripts/update_test_expected.py:112-146 | Fixes that name mismatching queries mend those queries of the file and nothing else |
| Convergence.PatchedCounts | scripts/update_test_expected.py:118-140 | No round spoils a query, and one with a report leaves fewer mismatches |
| Convergence.RoundIsPatch | scripts/update_test_expected.py:167-173 | The files after a round hold the patched suite, and files outside it are unchanged |
| Convergence.PatchSuiteProgress | scripts/update_test_expected.py:149-173 | Every round strictly lowers the mismatches and keeps the queries and the final state |
| Convergence.Converges | scripts/update_test_expected.py:149-176 | From any round on, k mismatches are gone within k more rounds and the next run passes |
| Convergence.UpdateAllConverges | scripts/update_test_expected.py:149-176 | With k mismatches below `max_rounds`, True is returned, exactly the mismatching blocks are replaced, and all else is kept |
| Convergence.HonestRunnerExists | scripts/update_test_expected.py:59-67 | A runner as the convergence requires it, and requires no more, exists for every suite whose results can be printed |
| SqlScan.StripIsCut | scripts/parity-audit.py:178-180 | Stripping comments is cutting every line at its first `--` |
| SqlScan.StrippedHasNoComment | scripts/parity-audit.py:178-180 | The result holds no `--` and keeps the number of newlines |
| SqlScan.StripIsIdempotent | scripts/parity-audit.py:178-180 | Stripping again changes nothing |
| SqlScan.CutLineMeans | scripts/parity-audit.py:132 | A cut line is the line up to where two dashes first stand |
| SqlScan.DepthCounts | scripts/parity-audit.py:186-191 | The depth of a text is its opening less its closing parentheses |
| SqlScan.NestedMeans | scripts/parity-audit.py:186-195 | Balance is: no prefix closes more than it opens, and the whole closes what it opens |
| SqlScan.TopFreeMeans | scripts/parity-audit.py:150-159 | Having no top-level comma is: before every comma the parentheses opened and closed do not cancel out |
| SqlScan.MatchingParenthesis | scripts/parity-audit.py:185-195 | The scan ends behind the one parenthesis that closes the head's own, and fails exactly when none does |
| SqlScan.SplitTopLevelLoop | scripts/parity-audit.py:147-162 | The loop computes the specified split |
| SqlScan.CutsAtTopCommas | scripts/parity-audit.py:149-159 | Of any text, balanced or not, the cuts are exactly the commas at depth 0 |
| SqlScan.JoinRestores | scripts/parity-audit.py:147-162 | Joining the pieces of any text restores it: all of it when its last piece is not blank, and all but that one otherwise |
| SqlScan.PiecesAreArguments | scripts/parity-audit.py:147-162 | Of a balanced text every piece is balanced and without a top-level comma |
| SqlScan.SplitOfJoin | scripts/parity-audit.py:147-162 | Splitting the join of balanced pieces without top-level commas, the last not blank, gives the pieces |
| Declarations.ScanArguments | scripts/parity-audit.py:186-192 | The depth loop stops where the specified matcher does, or with depth left when it finds nothing |
| Declarations.IterCreateFunctions | scripts/parity-audit.py:183-197 | The generator yields the declarations of the specified scan, in order |
| Declarations.YieldedAreNested | scripts/parity-audit.py:186-197 | Every argument text yielded is balanced, which is what the splitter needs |
| Declarations.HeadMeans | scripts/parity-audit.py:133-135 | The head pattern matches exactly where a head stands, in any casing and spacing, and gives its name and its end |
| Declarations.HeadsDoNotOverlap | scripts/parity-audit.py:133-135 | No head starts inside another, so `finditer` misses none by going on behind one |
| Declarations.EveryHeadIsYielded | scripts/parity-audit.py:183-197 | The scan yields the declaration of every head whose parenthesis closes, whatever position it has, and nothing else |
| Declarations.NoClauseMeans | scripts/parity-audit.py:136-197 | The return type is empty exactly where no RETURNS clause stands behind the arguments |
| Declarations.DeclarationRoundTrip | scripts/parity-audit.py:133-136 | A printed declaration, in any casing and spacing, is read back: name, arguments, and return type, or none where it has no RETURNS clause |
| Declarations.ScanMeans | scripts/parity-audit.py:183-197 | The declarations yielded are exactly those that stand in the text |
| SignatureTypes.SignatureTypesLoop | scripts/parity-audit.py:165-175 | The loop collects the specified set of types |
| SignatureTypes.CutMeans | scripts/parity-audit.py:140 | An argument is cut at the first place where DEFAULT stands as a word, in any casing, and nowhere if it does not |
| SignatureTypes.MatchMeans | scripts/parity-audit.py:144 | The pattern matches exactly a word with a typmod, array markers and blanks behind it to the end |
| SignatureTypes.SearchMeans | scripts/parity-audit.py:170 | The search gives the match that starts first, and none when nothing matches anywhere |
| SignatureTypes.SignatureMeans | scripts/parity-audit.py:165-175 | A type is extracted exactly when some argument declares it or it is the return type, in lower case |
| SignatureTypes.TypeMatches | scripts/parity-audit.py:144 | At a printed type's place the pattern matches, past any typmod and array markers, and gives the type |
| SignatureTypes.CutAndStrip | scripts/parity-audit.py:140-169 | Cutting the default and stripping leaves exactly the name, type, typmod and array markers |
| SignatureTypes.SignatureRoundTrip | scripts/parity-audit.py:140-175 | A printed signature gives exactly the lower-case declared types and the lower-case return type |
| Coverage.BucketSection | scripts/parity-audit.py:348-377 | The loop over a section's names gives the specified row |
| Coverage.ClassifyAll | scripts/parity-audit.py:337-381 | The loop over the sections gives the specified rows and, per type, the sections blocked on it |
| Coverage.ClassifyMeans | scripts/parity-audit.py:350-372 | A name in scope is blocked iff it misses a type, and else covered iff some registered name is the same character by character up to casing, and else missing |
| Coverage.RowMeans | scripts/parity-audit.py:348-377 | The row of a section lists each of its names under exactly the heading its meaning gives, and blocked ones with exactly the types they miss |
| Coverage.BucketInOrder | scripts/parity-audit.py:349-372 | The lists of a row keep the order of the section's names |
| Coverage.RowsInOrder | scripts/parity-audit.py:343-381 | The rows keep the order of the sections |
| Coverage.RowsHold | scripts/parity-audit.py:343-381 | The rows are those of the sections that have names and are in, or out of, the audit |
| Coverage.BucketsPartition | scripts/parity-audit.py:349-372 | The four buckets of a section together are its entries, each once |
| Coverage.TotalsConserve | scripts/parity-audit.py:373-396 | Addressable and out-of-scope totals sum to the names of all sections |
| Coverage.ClassifyExtends | scripts/parity-audit.py:350-372 | Registering more never takes a name out of covered, into blocked, or in or out of scope |
| Coverage.NoNameLost | scripts/parity-audit.py:350-381 | Registering more leaves every name that is covered covered, section by section |
| Coverage.RegisteringMoreHelps | scripts/parity-audit.py:343-396 | Registering more keeps the addressable total, takes no name out of covered, and blocks no more |
| Coverage.RecountBlocked | scripts/parity-audit.py:538-543 | The recount of appendix C counts, for each type, the blocked entries that name it |
| Coverage.BlockersMean | scripts/parity-audit.py:361-368 | A type is listed with exactly the sections of the audit in which a name in scope misses it |
| Coverage.SectionsAtMostEntries | scripts/parity-audit.py:361-368 | A type blocks a section iff some blocked entry names it, and no more sections than entries |
| Coverage.AppendixC | scripts/parity-audit.py:538-559 | The recounted types are the keys of `blocking_types`, and the counts sum to all unregistered types named, at least the blocked total |
| Coverage.CollectSection | scripts/parity-audit.py:282-289 | Per name, the counts and the types of all declarations of a file |
| Coverage.CountIsNumber | scripts/parity-audit.py:286-287 | The count of a name is the number of its declarations |
| Coverage.BlockedByDeclaration | scripts/parity-audit.py:286-371 | A name in scope is blocked exactly when one of its declarations names an unregistered value type |
| Coverage.PrintedTypesCollected | scripts/parity-audit.py:165-289 | Scanner, splitter and extractor together: the types of a declaration printed anywhere are collected under its name |
| TemporalMeta.ToDict | tools/temporal_parquet.py:149-174 | The dictionary built field by field is the specified encoding |
| TemporalMeta.ToJson | tools/temporal_parquet.py:204-210 | The object built column by column is the specified encoding of a file's metadata |
| TemporalMeta.FullColumn | tools/temporal_parquet.py:149-192 | A column with every field set is the dictionary with every key, both ways |
| TemporalMeta.BareColumn | tools/temporal_parquet.py:176-192 | A base type alone is read with the default encoding and version, and nothing else set |
| TemporalMeta.CoveringShape | tools/temporal_parquet.py:142-173 | A covering is written as an object of objects of lists, each bound's path name by name |
| TemporalMeta.FixedByType | tools/temporal_parquet.py:145-169 | Without edges, those the base type fixes are written, and with SRID 0 and no CRS a null CRS |
| TemporalMeta.LegacyKept | tools/temporal_parquet.py:166-180 | A legacy dictionary is written back with the same `geodetic` and the edges it stands for |
| TemporalMeta.EdgesRead | tools/temporal_parquet.py:178-180 | Given edges are kept whatever `geodetic` says |
| TemporalMeta.ColumnRoundTrip | tools/temporal_parquet.py:149-192 | Decoding an encoded column gives its canonical form: edges resolved, CRS null for SRID 0, empty covering dropped |
| TemporalMeta.CanonicalIsStable | tools/temporal_parquet.py:145-174 | Canonicalising is idempotent and leaves the encoding unchanged |
| TemporalMeta.GeodeticAgrees | tools/temporal_parquet.py:166-169 | `geodetic` is written iff `edges` is, and says whether they are not planar |
| TemporalMeta.RewriteSettles | tools/temporal_parquet.py:149-192 | Reading any well-typed dictionary, legacy `geodetic` included, and writing it back settles after one pass |
| TemporalMeta.FileKeys | tools/temporal_parquet.py:204-223 | A file's version, primary column and columns go under their keys, and missing ones are read as their defaults |
| TemporalMeta.FileRoundTrip | tools/temporal_parquet.py:204-223 | Decoding the encoded metadata of a file, for any columns, gives its canonical form |
| TemporalMeta.CanonicalFileIsStable | tools/temporal_parquet.py:204-223 | The canonical form of a file's metadata is its own, and is written the same |
| CoveringCheck.CoveringsInSchema | tools/temporal_parquet.py:227-243 | The loop over the three kinds of covering gives the specified covering |
| CoveringCheck.BoundDeclaredIffHeld | tools/temporal_parquet.py:227-243 | A bound is declared, with its path, iff it is one of its kind's and the struct column `<column>_<kind>` holds that field; nothing else is declared |
| CoveringCheck.FillCoverings | tools/temporal_parquet.py:288-290 | Only missing coverings are filled in, from the schema, also where columns share an object |
| CoveringCheck.FilledMeans | tools/temporal_parquet.py:288-290 | A column without a covering gets exactly the bounds its struct columns hold, or none; one with a covering is unchanged |
| CoveringCheck.Write | tools/temporal_parquet.py:271-301 | The first column that is missing or not binary is the error, before any change; else schema and other metadata keys are kept, the key is read back as the metadata given, and the verifier accepts iff the given coverings are held |
| CoveringCheck.Verify | tools/temporal_parquet.py:320-347 | The loops give the specified verdict, sampling a column without lengths included |
| CoveringCheck.VerdictMeans | tools/temporal_parquet.py:320-347 | False without the key; True exactly when every column is there and every path ends in a field its struct column holds; raising exactly where metadata, a sample or a path cannot be taken |
| CoveringCheck.AnnotatedVerdict | tools/temporal_parquet.py:292-347 | Through encoding and decoding, the verifier accepts a written file of binary columns iff its schema holds every covering |
| LoadOnce.Reached | src/mobilityduck_extension.cpp:217-340 | Every state any interleaving of any number of threads reaches keeps the invariant |
| LoadOnce.ConfiguredOnce | src/mobilityduck_extension.cpp:217-292 | A setter is called at most once, and a thread leaves its function only after the one execution: with what a call of it threw, or normally if none threw |
| LoadOnce.ThrowIsStored | src/mobilityduck_extension.cpp:220-241 | A failure is stored exactly when the choice of the path or the setter threw it at some turn |
| LoadOnce.ThrowReachesAll | src/mobilityduck_extension.cpp:217-292 | From a throw on, every thread past the function has thrown the same, and the setter is never called where the path could not be chosen |
| LoadOnce.SetterIsCounted | src/mobilityduck_extension.cpp:232-234 | The setter's calls are those counted and seen, and there is one exactly when some turn made it |
| LoadOnce.SameOutcome | src/mobilityduck_extension.cpp:239-291 | Threads leave a configure function all normally or all with the one stored failure |
| LoadOnce.EffectsInOrder | src/mobilityduck_extension.cpp:322-340 | The set-up calls happen in order, each at most once, and registrations only after all of them |
| LoadOnce.InitialisedOnlyIfConfigured | src/mobilityduck_extension.cpp:324-334 | MEOS is initialised only if both setters were called and no call of either configuration threw |
| LoadOnce.NothingRegisteredAfterFailure | src/mobilityduck_extension.cpp:322-340 | After a call that threw nothing is initialised and no thread reaches a registration |
| LoadOnce.NoDeadlock | src/mobilityduck_extension.cpp:213-242 | While a thread has not finished, some thread can step |
| LoadOnce.StepUsesUp | src/mobilityduck_extension.cpp:217-340 | Every step lowers a bound on the steps left, so no schedule steps for ever |
| LoadOnce.CanFinish | src/mobilityduck_extension.cpp:217-340 | From every reachable state all threads can be brought to their end, whatever result each later call has |
| LoadOnce.RegistersOnce | src/mobilityduck_extension.cpp:322-340 | In every reachable state the loaded threads have registered once each, and no others have |
| LoadOnce.FinalOutcome | src/mobilityduck_extension.cpp:217-340 | At the end, if no call threw, all threads are loaded after one complete set-up with one registration each; else all threw what a call threw, and nothing was initialised or registered |

## Left out

- UpdateAll.TestTree.UpdateAll: what is printed on the way is left out.
- Convergence.UpdateAllConverges: is for a runner that in every round passes exactly when all blocks match, and otherwise reports mismatching queries with what they returned; a result that starts with an all-`=` line cannot be reported, as FailureLog.PrintThenParseExact says.
- Convergence.FixedIsPatched: is for files whose queries have their separator within the search window and an expected block ended by a blank line or the end of the file.
- ReadBack.FixedReadsBack: requires, like FixedFindsItsOwn, that no replaced block holds another replaced block's separator; such a separator is gone after the edits (ExpectedBlocks.InPlaceIsSimultaneous covers those files too).
- FailureLog.HeaderRoundTrip: digits, and in the other patterns word characters and letter case, are those of ASCII.
- SignatureTypes.SignatureRoundTrip: is for typmods without parentheses and names other than DEFAULT; the extraction itself is modelled for every text.
- Coverage.AppendixC: the order in which the report lists names, types and sections is left out, as sets and maps have none.
- TemporalMeta.RewriteSettles: metadata of the wrong JSON type, which the source keeps unchecked, is taken as not decodable.
- CoveringCheck.Write: schemas with two columns of one name are left out, since a field is asked for by its name.
- CoveringCheck.Verify: the numbers and lengths that are printed are left out; that taking a length can raise is kept.
- Declarations.DeclarationRoundTrip: a declaration without a RETURNS clause is one behind which none stands; a clause that belongs to something else would be taken for its own, as the source takes it.
- ExpectedBlocks.InPlaceIsSimultaneous: is for lines from 1 on; a fix at line 0 is modelled by ApplyAtZero, but a separator on the file's last line sends it to the start of the file, which no single rewrite by separators describes.
- LoadOnce.Reached: the choice of a CSV path and the setter either return or throw; the three MEOS calls of the initialisation block return; the registrations after it are one step.
- Newline translation, path joining, temporary files, subprocesses, and the bytes of JSON and Parquet.
- The regular expressions that find value types, operators and registrations in SQL and C++ texts, and `scripts/return-type-audit.py`, which is such recognition and a set difference.
- The percentages, dates and Markdown of the report.
- The ICU and spatial auto-loading, and the generated tables and MEOS marshalling of the extension, whose laws belong to MEOS and DuckDB.
