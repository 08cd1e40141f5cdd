# Verified models of the compression engine, the response cache and two benchmark loops

This project models the deterministic text-compression engine, the response cache and three small
benchmark programs of the repository, and proves what they are for. `dafny verify dfyconfig.toml`
checks everything.

**Compression.** A text is a `string`; lines are those of `str.splitlines`, with all ten of its line
breaks and "\r\n" as one. Every regular expression is written as the scanner it denotes (leftmost,
greedy), markers are real text with decimal printing and parsing. `Text` holds characters, numbers and
lines; `Substitution` is `re.sub`; `RunFold` is the loop that `dedup_lines`, `fenced_log_fold` and
`numbered_noise_fold` share, and `TextFold` what becomes of its markers when the joined output is split
again; the passes are one module each, with `BlankMerging` beside `CollapseBlanks`; `Driver` is the
shrink-only driver; `PipelineIdempotence`, `PipelineCrlf`, `FullPipeline` and `LogPipeline` compose the base
passes, `ExtraIdempotence` the extra ones, and `PipelineWitness`, `LogPipelineWitness` and `ExtraPipeline`
show where the compositions fail.

**Cache.** `Eviction` is the listing, the stable sort by time and the eviction rule; `Cache` is the class
`ResponseCache` over entries on disk, with every read, write, touch and unlink that may fail given as a
parameter of the operation; `CacheKey` is the key, and the path of a request through the proxy;
`Hex` is the byte encoding of a stored body.

**Benchmarks.** `Pool` is the semaphore pool as a state machine over all interleavings, `Oracle` its judge,
`Percentile` the nearest-rank percentile, `HelpExplorer` the worklist that walks help texts, `MeanRss` the
time-weighted mean.

## Where the code does less than its documentation says

The docstrings promise idempotence of every pass and of both pipelines on every text. The model follows the
code. `dedup_lines`, `rule_runs`, `hex_dump_fold` and `markdown_table_ws` keep the promise; for the other
passes that are modelled it is false, and the exact condition is proved on every text.

- `strip_ansi`: exactly unless a kept ESC comes before what completes an escape sequence once the sequences
  between are gone (`Ansi.StripIsIdempotentIff`, with a failing text in `Ansi.SplicingWitness`).
- `trailing_ws`: exactly on the texts without blank, carriage return, blanks, line feed in a row
  (`TrailingWs.StripIsIdempotentIff`).
- `collapse_blanks`: exactly unless a lone carriage return on an otherwise blank line is followed by a run
  without "\r\n" that starts with a blank (`BlankMerging.CollapseIsIdempotentIff`, with a failing text in
  `BlankMerging.MergingWitness`).
- `repeated_block_fold`: exactly when no kept block nests another repeated block
  (`BlockFold.FoldIsIdempotentIff`, `BlockFold.NestedBlocksWitness`).
- `fenced_log_fold`: exactly when no marker makes up a run of five with the lines shown behind it. The marker
  of a bare date and time has a prefix of its own and needs four such lines; any other marker has the prefix
  of its run and needs three, which only a blank line kept apart that the marker, ending in a carriage return,
  took for the other half of its end (`LogFold.LogFoldIsIdempotentIff`, `LogFold.LogFoldIsNotIdempotent`).
  The pass also does not look for fences, whatever its name and comment say.
- `numbered_noise_fold`: exactly when no eight pieces in a row are shown by lines that make up a run
  (`NoiseFold.NoiseFoldIsIdempotentIff`). Without NUL this can only happen through a line with a single quote
  and no double quote, for then `repr` prints the sample in double quotes and the marker does not recognise
  itself; and for every such line there is a text that fails (`NoiseFold.NoiseFoldIsIdempotent`,
  `NoiseFold.NoiseFoldIsNotIdempotent`, `NoiseFold.ExceptedWitness`).
- `long_token_elide`: exactly when every token is shorter than 10^193 (`LongToken.ElideIsIdempotentIff`).
- The base pipeline: its five line and character passes hold the promise on all texts in which no carriage
  return, blanks aside, comes before a line feed, whatever other breaks they have, and on all texts whose line
  feeds all end a "\r\n" that no lone return precedes, unless lines repeat that end in a form feed or the like
  (`PipelineIdempotence.FivePassesAreIdempotent`, `PipelineCrlf.FivePassesAreIdempotentOnCrlf`). They break it
  on `"a \r \n"` and on texts that mix the two line ends (`PipelineWitness.FivePassesAreNotIdempotent`,
  `PipelineWitness.MixedLineEndsAreNotIdempotent`).
- The whole list of base passes, when the JSON pass is rejected, holds it exactly if what comes out has no escape
  sequence and the log fold is rejected on it (`FullPipeline.BasePipelineIsIdempotentIff`); so it does where no
  five lines in a row share a prefix, and on log texts whose log fold was accepted
  (`LogPipeline.PlainTextPipelineIsIdempotent`, `LogPipeline.LogPipelineIsIdempotent`). It breaks it on plain
  log lines: a log fold that the guard rejects, because the marker of a short run is longer than the run, is
  accepted once dedup has shortened that run (`LogPipelineWitness.LogPipelineIsNotIdempotent`).
- The extra pipeline breaks it on any six different tokens of 201 characters on lines of their own
  (`ExtraPipeline.ExtraPassesAreNotIdempotent`). Where, once the tables are tightened, there is no token to
  elide, no run of numbered lines to fold and no line like a block marker, it holds it exactly if block folding
  is rejected, or would be on what it gives (`ExtraIdempotence.ExtraPassesAreIdempotentIff`).
- The oracle of the pool does not see a task that is missing from the counter, although the name of its
  field says so (`Oracle.MissingInvocationWitness`).
- A cache key ignores every field outside its list, also `seed` or `stop`, which change the answer
  (`CacheKey.OtherFieldsAreIgnored`), and all that comes with the body: method, path, provider and headers, the
  authorization among them (`CacheKey.EnvelopesAreIgnored`); and the key of a request that cannot be serialised,
  said to collide with nothing, is that of every failing request with the same model and the same body address
  (`CacheKey.KeysSeparate`).
- A response just put can be lost although it fits, if another entry has the same modification time
  (`Cache.TiedPutIsLost`); `Cache.PutThenGetIff` says exactly when, for any times and failing unlinks.

## Model

| member | source | states |
|---|---|---|
| Text.JoinOfSplit | engine/simplicio_compress.py:74-100 | joining the lines of a text gives the text back |
| Text.SplitOfJoin | engine/simplicio_compress.py:74-100 | a sequence of closed lines is what its joined text splits into |
| Text.NumberReadsBack | engine/simplicio_compress.py:69 | a number printed between the two literals of a marker is read back |
| Text.DecimalLength | engine/simplicio_compress_extra.py:111-113 | a number prints with at most k digits exactly when it is below 10^k |
| Text.DecimalDigits | engine/simplicio_compress.py:96 | a number is its quotient by ten, unless that is zero, and then the digit of its remainder |
| Text.SpacesAre | engine/simplicio_compress_extra.py:107-116 | white space is the twenty-nine characters of `str.isspace`, each written out |
| Text.SplitAtBreak | engine/simplicio_compress.py:74-100 | a line ends at the first of the ten breaks, written out, or at the end of the text; "\r\n" is one break |
| Text.EolOfEnd | engine/simplicio_compress.py:93-95 | a marker is closed with the returns and line feeds that end the line, or with a line feed if there are none |
| Substitution.SubChangesIffShorter | engine/simplicio_compress.py:124-130 | if every replacement is shorter, the result differs from the text exactly when it is shorter, exactly when the pattern matches somewhere |
| Substitution.SubKeepsAll | engine/simplicio_compress.py:124-141 | what holds of all characters of a text and of its replacements holds of the result |
| RunFold.RunEnd | engine/simplicio_compress.py:86-88 | the inner loop stops after the last line in a row that goes on with the run |
| RunFold.FoldRuns | engine/simplicio_compress.py:74-100 | the loop over the lines computes the fold |
| RunFold.FoldCutsAtLongRuns | engine/simplicio_compress.py:166-201 | on any lines they are conserved: the input is kept lines and maximal runs that are long enough, the output each kept line as it was and each run as rendered, and no stretch of kept lines hides another such run |
| RunFold.RunIsFolded | engine/simplicio_compress.py:166-201 | a run that is long enough, in front of a line that does not go on with it, is replaced by what it is rendered as |
| RunFold.ShortRunIsKept | engine/simplicio_compress.py:166-201 | a shorter one stays |
| RunFold.FoldIdempotent | engine/simplicio_compress.py:15 | a fold whose markers have no key, or that of their run, does nothing the second time |
| RunFold.MarkersReopen | engine/simplicio_compress_extra.py:15 | a marker with a key of its own, after its run and before enough copies of itself, is folded by the second pass |
| TextFold.OutputSplits | engine/simplicio_compress.py:166-201 | on every text the joined output splits into the shown lines, but that a marker with a break in its prefix is two lines and one that ends in a carriage return takes a line feed behind it |
| TextFold.TextIsFixedIff | engine/simplicio_compress.py:15 | a fold leaves a text unchanged exactly if its lines hold no run to fold |
| TextFold.MarkerFoldIsIdempotentIff | engine/simplicio_compress_extra.py:15 | if a run is shown by its marker alone, on every text a second pass does nothing exactly if the lines shown for the pieces nowhere gather to a run |
| Dedup.Dedup | engine/simplicio_compress.py:72-100 | the loop computes the folded text |
| Dedup.CopiesAreFolded | engine/simplicio_compress.py:72-100 | a line standing n times in a row becomes itself and the marker; it stays if n is 1, if it is blank or if it ends with a marker |
| Dedup.MarkerReads | engine/simplicio_compress.py:94-97 | the marker, character by character, counts the n - 1 lines that go |
| Dedup.MarkerEndsAre | engine/simplicio_compress.py:69-84 | a line is taken for a marker exactly if it ends with "… (", a number and " repeated lines collapsed)" |
| Dedup.DedupIsLossless | engine/simplicio_compress.py:66-100 | expanding the output gives what expanding the input gives, even if it holds markers; a text without markers is recovered exactly |
| Dedup.ExpandUndoesDedup | engine/simplicio_compress.py:72-100 | the same on lines, after any lines decoded before |
| Dedup.DedupIsIdempotent | engine/simplicio_compress.py:72-100 | on every text a second pass does nothing |
| Dedup.DedupFixpoint | engine/simplicio_compress.py:72-100 | the pass does nothing exactly if no line but blanks and markers repeats the one before; its output is such a text |
| LogFold.FencedLogFold | engine/simplicio_compress.py:166-201 | the loop computes the folded text |
| LogFold.LogCutsAtLongRuns | engine/simplicio_compress.py:144-201 | exactly the maximal runs of five or more lines of one prefix are folded, every other line is kept |
| LogFold.PrefixesAre | engine/simplicio_compress.py:144-163 | the prefix of a line is exactly an indent, a tag in brackets, or a date and time with ' ' or 'T' and what follows up to a space, or a time with its whole fraction after '.' or ','; and the space behind it |
| LogFold.LogLinesAreFolded | engine/simplicio_compress.py:166-201 | on any text, five or more lines with one prefix in front of a line without it become the first of them and the marker, fewer stay, and the rest is treated on its own |
| LogFold.LogRunIsFolded | engine/simplicio_compress.py:166-201 | five or more lines with one prefix in front of a line without it become the first of them and the marker |
| LogFold.ShortLogIsKept | engine/simplicio_compress.py:166-201 | fewer than five stay |
| LogFold.OthersAreKept | engine/simplicio_compress.py:176-181 | a line without a prefix stays |
| LogFold.MarkerReads | engine/simplicio_compress.py:190-196 | the marker, character by character: the prefix, the n - 1 lines that go, and the stripped prefix as `repr` shows it |
| LogFold.StripsSpace | engine/simplicio_compress.py:195 | stripping takes exactly the white space at both ends |
| LogFold.MarkerIsFoldable | engine/simplicio_compress.py:190-196 | a marker is a line and has the prefix of its run, unless that is a bare date and time, which the ellipsis and the blank join |
| LogFold.MarkerIsTwoLines | engine/simplicio_compress.py:190-196 | if the prefix has a break, the line is nothing else, and the marker is that line once more and a second one without a prefix |
| LogFold.LogFoldIsIdempotentIff | engine/simplicio_compress.py:166-201 | on every text a second pass does nothing exactly if no marker makes up a run with the lines shown behind it: four with the prefix that a bare date and time gets, or three with the prefix of the run, behind a line feed that the marker took |
| LogFold.LogFoldIsNotIdempotent | engine/simplicio_compress.py:166-201 | for every bare date and time a text on which the second pass folds again |
| LogFold.DateTimeIsBare | engine/simplicio_compress.py:147-163 | every date and time without fraction or zone is such a stamp |
| NoiseFold.NumberedNoiseFold | engine/simplicio_compress_extra.py:133-167 | the loop computes the folded text |
| NoiseFold.NoiseCutsAtLongRuns | engine/simplicio_compress_extra.py:119-167 | on any lines exactly the maximal runs of eight or more equal up to their numbers become one marker, every other line is kept |
| NoiseFold.SimilarLinesBecomeOne | engine/simplicio_compress_extra.py:133-167 | on any text, eight or more lines made of the same pieces with different numbers between them become one line, which tells how many they were and shows the pieces with an ellipsis for each number |
| NoiseFold.SampleAt | engine/simplicio_compress_extra.py:158-159 | what is shown has as many characters as the key: the ellipsis for each NUL, every other one as it is |
| NoiseFold.CanonOfWoven | engine/simplicio_compress_extra.py:119-130 | the key of a line is the line with one NUL for each number |
| NoiseFold.MarkersAre | engine/simplicio_compress_extra.py:125 | a line is taken for a marker exactly if it is "… (", a number, " near-identical lines: '", anything and "')" |
| NoiseFold.ShortNoiseIsKept | engine/simplicio_compress_extra.py:133-167 | fewer than eight such lines stay |
| NoiseFold.OthersAreKept | engine/simplicio_compress_extra.py:143-151 | a line without digits and NUL stays, and so does a marker |
| NoiseFold.MarkerIsRecognised | engine/simplicio_compress_extra.py:125-161 | a marker recognises itself exactly if its sample is printed in single quotes |
| NoiseFold.NoiseFoldIsIdempotentIff | engine/simplicio_compress_extra.py:133-167 | on every text a second pass does nothing exactly if nowhere eight pieces in a row are shown as the same up to their numbers, the first of them by a line with a key or the marker of lines with a single and no double quote |
| NoiseFold.NoiseFoldIsIdempotent | engine/simplicio_compress_extra.py:133-167 | in particular, without NUL, if no foldable line has a single and no double quote |
| NoiseFold.NoiseFoldIsNotIdempotent | engine/simplicio_compress_extra.py:133-167 | for every line of the excepted kind a text on which the second pass folds the markers of the first |
| NoiseFold.ExceptedWitness | engine/simplicio_compress_extra.py:133-167 | such a line exists |
| BlockFold.CountCopies | engine/simplicio_compress_extra.py:80-84 | the inner loop counts the copies of the block in a row |
| BlockFold.TryBlock | engine/simplicio_compress_extra.py:76-92 | a block is folded exactly if it is long enough, holds no marker and stands twice |
| BlockFold.FoldLines | engine/simplicio_compress_extra.py:67-101 | the loops compute the fold, the largest block first |
| BlockFold.RepeatedBlockFold | engine/simplicio_compress_extra.py:67-101 | the pass computes the folded text, short texts included |
| BlockFold.BlockIsFolded | engine/simplicio_compress_extra.py:67-101 | n copies of a block of three or more lines, none of them a marker, that is the longest to come again at this line, become one copy and the marker, whatever follows |
| BlockFold.LineIsKept | engine/simplicio_compress_extra.py:67-101 | a line at which no such block starts stays |
| BlockFold.MarkerReads | engine/simplicio_compress_extra.py:86-90 | the marker, character by character, with the end of line of the block's last line |
| BlockFold.MarkersAre | engine/simplicio_compress_extra.py:61-63 | a line is taken for a marker exactly if it is the two numbers between these words |
| BlockFold.MarkersAreGood | engine/simplicio_compress_extra.py:61-66 | block length and repetitions are read back from a marker, and the marker is a line that may stand where the block's last line stands |
| BlockFold.FoldIsLossless | engine/simplicio_compress_extra.py:67-101 | decoding the output gives what decoding the input gives, markers in it included; a text without markers is recovered exactly |
| BlockFold.UnfoldUndoesFold | engine/simplicio_compress_extra.py:67-101 | the same on lines, after any lines decoded before |
| BlockFold.RepeatedFoldingIsLossless | engine/simplicio_compress_extra.py:67-101 | a text folded any number of times decodes to the same |
| BlockFold.FoldFixpoint | engine/simplicio_compress_extra.py:67-101 | the fold does nothing exactly if at no line a block of any length may be folded |
| BlockFold.FoldIsIdempotentIff | engine/simplicio_compress_extra.py:15 | a second pass does nothing exactly if every block that is kept has itself nothing to fold |
| BlockFold.NestedBlocksWitness | engine/simplicio_compress_extra.py:15 | for any block x and line y, on the text of the lines x x y twice a second pass changes the result of the first |
| Ansi.EscFreeStays | engine/simplicio_compress.py:29-43 | a text without ESC stays as it is |
| Ansi.ControlSequenceGoes | engine/simplicio_compress.py:29-43 | ESC "[", any characters '0' to '?', any ' ' to '/', and one '@' to '~' are removed |
| Ansi.CommandGoes | engine/simplicio_compress.py:29-43 | ESC "]", anything without BEL and ESC, and BEL or ESC "\\" are removed |
| Ansi.UnfinishedCommandGoes | engine/simplicio_compress.py:29-43 | of a command that never ends only ESC "]" is removed |
| Ansi.ShortEscapeGoes | engine/simplicio_compress.py:29-43 | ESC and one of '@' to '_' but the two brackets are removed |
| Ansi.OthersStay | engine/simplicio_compress.py:29-43 | every other character stays, and every ESC that starts none of these |
| Ansi.StripIsIdempotentIff | engine/simplicio_compress.py:29-43 | on every text a second pass does nothing exactly if no kept ESC comes before what completes a sequence once the sequences between are gone |
| Ansi.SplicingWitness | engine/simplicio_compress.py:29-43 | a text of five characters fails that condition |
| TrailingWs.StripIsIdempotentIff | engine/simplicio_compress.py:46-50 | a second pass does nothing exactly on the texts where stripping uncovers no blank |
| TrailingWs.UncoveringWitness | engine/simplicio_compress.py:46-50 | a text of five characters fails that condition |
| TrailingWs.BlanksAtEndGo | engine/simplicio_compress.py:46-50 | spaces and tabs before "\n", before "\r\n" or at the end of the text are removed, before anything else they stay |
| TrailingWs.OthersStay | engine/simplicio_compress.py:46-50 | every other character stays |
| CollapseBlanks.CollapseActsOnRuns | engine/simplicio_compress.py:57-64 | on any text exactly the maximal runs of four or more blank line ends become three bare ones, every other character stays |
| CollapseBlanks.CollapseIsCap | engine/simplicio_compress.py:57-64 | on stripped texts without "\r\n" exactly the line feeds beyond the third of a run go |
| CollapseBlanks.CapTwice | engine/simplicio_compress.py:57-64 | capping the runs a second time does nothing |
| CollapseBlanks.RunIsCollapsed | engine/simplicio_compress.py:57-64 | four or more blank line ends in a row, as long as no further one follows, become "\n\n\n", or "\r\n\r\n\r\n" if one of them has a return; fewer stay |
| CollapseBlanks.OthersStay | engine/simplicio_compress.py:57-64 | a character at which no blank line end starts stays |
| BlankMerging.CollapseIsIdempotentIff | engine/simplicio_compress.py:57-64 | on any text a second pass does nothing exactly if nowhere a lone carriage return on an otherwise blank line is followed by a run without "\r\n" that starts with a blank |
| BlankMerging.MergingWitness | engine/simplicio_compress.py:57-64 | a text of seven characters that a second pass changes |
| RuleRuns.RunsAreClipped | engine/simplicio_compress.py:118-127 | run by run, exactly the maximal runs of ten or more rule characters become eight, all other runs stay |
| RuleRuns.RunIsShortened | engine/simplicio_compress.py:118-127 | a maximal run of n equal characters becomes eight if n is at least 10 and the character is one of "=-_*#.~", and stays otherwise |
| RuleRuns.ShortenIsIdempotent | engine/simplicio_compress.py:118-127 | on every text a second pass does nothing, and the pass changes a text only by making it shorter |
| HexDump.MarkerCounts | engine/simplicio_compress.py:133-141 | the marker tells the number of byte pairs removed, and is shorter than they were |
| HexDump.DumpIsCounted | engine/simplicio_compress.py:133-141 | thirty-two or more pairs of hex digits of either case, with single spaces between and no further pair behind, become their marker |
| HexDump.MarkerReads | engine/simplicio_compress.py:138-140 | the marker of n pairs, character by character |
| HexDump.OthersStay | engine/simplicio_compress.py:133-141 | a character at which no thirty-two pairs start stays |
| HexDump.OutputHasNoDump | engine/simplicio_compress.py:133-141 | no replacement makes a new dump with the text around it |
| HexDump.FoldIsIdempotent | engine/simplicio_compress.py:133-141 | on every text a second pass does nothing |
| LongToken.ElideActsOnTokens | engine/simplicio_compress_extra.py:107-116 | a text is tokens and white space between them; exactly the maximal tokens of 201 or more characters become markers, every other character stays |
| LongToken.TokenIsCounted | engine/simplicio_compress_extra.py:107-116 | a token in front of white space or at the end of the text becomes "<token:", its length and " chars elided>" if it has 201 or more characters, and stays otherwise |
| LongToken.MarkerLength | engine/simplicio_compress_extra.py:111-113 | a marker has 21 characters and the digits of the token's length, fewer than the token |
| LongToken.ElideIsIdempotentIff | engine/simplicio_compress_extra.py:107-116 | a second pass does nothing exactly if every token is shorter than 10^193 |
| TableWs.MapLinesLoop | engine/simplicio_compress_extra.py:42-54 | the loop maps every line |
| TableWs.TightenLine | engine/simplicio_compress_extra.py:43-53 | the content of a line is tightened if it is a row, its end of line stays |
| TableWs.MarkdownTableWs | engine/simplicio_compress_extra.py:38-54 | the pass computes the mapped text |
| TableWs.LinesAreTightened | engine/simplicio_compress_extra.py:42-54 | a text is treated line by line, each line in front of its "\n", "\r" or "\r\n", which stays |
| TableWs.TightenedCells | engine/simplicio_compress_extra.py:34-50 | the two substitutions act cell by cell: every side next to a pipe keeps at most one space |
| TableWs.RowsAreTightened | engine/simplicio_compress_extra.py:25-50 | exactly the lines with two pipes and only white space outside them are tightened, cell by cell |
| TableWs.CellIsTight | engine/simplicio_compress_extra.py:34-50 | of the a and b spaces around the text of a cell at most one stays on each side next to a pipe; those at the two ends of the row stay |
| TableWs.BlankCellIsTight | engine/simplicio_compress_extra.py:34-50 | the same for a cell of spaces only |
| TableWs.TightenKeepsTheTable | engine/simplicio_compress_extra.py:25-54 | the trimmed cells are the same before and after, a row stays a row and no other line becomes one, no pipe keeps two spaces on a side, nothing gets longer, a second time changes nothing |
| TableWs.TableTextIsIdempotent | engine/simplicio_compress_extra.py:38-54 | on every text, whatever its line breaks, a second pass does nothing |
| TableWs.TableTextIsShorter | engine/simplicio_compress_extra.py:38-54 | on every text the pass never makes it longer, and changes it only by making it shorter |
| Driver.RunPipeline | engine/simplicio_compress.py:216-228 | the loop keeps a pass's result only if it is a shorter string, and records the names of just these passes in order |
| Driver.KeptPassesAreRecorded | engine/simplicio_compress.py:216-228 | pass number i runs on what the passes before it left; a strictly shorter result is kept and the name recorded behind those so far, any other result and a failure change neither text nor names |
| Driver.RunInTwo | engine/simplicio_compress.py:216-228 | running two lists of passes one after the other gives the text of the second run on the first, and the names of both |
| Driver.Compress | engine/simplicio_compress.py:231-241 | the public function, and with the other list `compress_extra` |
| Driver.CompressReport | engine/simplicio_compress.py:244-261 | the report's length after is that of the compressed text, whatever the passes raise, and the names are those recorded by the loop |
| Driver.Accounting | engine/simplicio_compress.py:216-241 | every recorded pass saved at least one character, and none is recorded exactly if the text is unchanged |
| Driver.AppliedInOrder | engine/simplicio_compress.py:216-228 | the recorded names are a subsequence of the names of the passes |
| Driver.FixpointIff | engine/simplicio_compress.py:13-16 | for any list of passes that may fail, a text is a fixpoint exactly if no pass on its own makes it shorter |
| Driver.ReachesFixpoint | engine/simplicio_compress_extra.py:178-195 | iterating the driver on x is at a fixpoint after as many rounds as x has characters |
| PipelineIdempotence.First3Settles | engine/simplicio_compress.py:46-141 | on texts in which no carriage return, blanks aside, comes before a line feed, the output of the first three passes is a fixpoint of each of them |
| PipelineIdempotence.DedupKeeps | engine/simplicio_compress.py:72-141 | dedup keeps these fixpoints |
| PipelineIdempotence.CollapseKeeps | engine/simplicio_compress.py:57-141 | collapsing blank lines keeps them, and changes a text only by making it shorter |
| PipelineIdempotence.DedupDelta | engine/simplicio_compress.py:57-100 | collapsing blank lines does not change what dedup would save, however characters are weighed |
| PipelineIdempotence.DedupStaysRejected | engine/simplicio_compress.py:57-100 | a dedup the guard rejected stays rejected afterwards |
| PipelineIdempotence.FivePassesAreIdempotent | engine/simplicio_compress.py:204-241 | trailing_ws, rule_runs, hex_dump_fold, dedup_lines and collapse_blanks under the guard are idempotent on every text in which no carriage return, blanks aside, comes before a line feed |
| PipelineCrlf.FivePassesAreIdempotentOnCrlf | engine/simplicio_compress.py:204-241 | the same on every text whose line feeds all end a "\r\n" that no lone return precedes, blanks aside, if lines that repeat end in "\n" or "\r" |
| PipelineCrlf.PlainTextRepeats | engine/simplicio_compress.py:46-141 | for that it is enough that the text has no other breaks than "\n" and "\r" |
| PipelineCrlf.CrlfOrigin | engine/simplicio_compress.py:46-64 | these texts are just those of the first result with "\r\n" for "\n" |
| FullPipeline.BasePipelineIsIdempotentIff | engine/simplicio_compress.py:204-241 | with any log and JSON pass: if the line passes have nothing to do after an accepted log pass and the JSON pass is rejected, one run gives what dedup and collapsing then make of the text, and is enough exactly if that has no escape sequence and the log pass is rejected on it |
| FullPipeline.PlainPipelineIsIdempotentIff | engine/simplicio_compress.py:204-241 | if every ESC belongs to an escape sequence and nothing looks like JSON, one run is enough exactly if the log pass is rejected at its end |
| FullPipeline.First3KeepsNotJson | engine/simplicio_compress.py:104-114 | for that it is enough, if the log pass is rejected, that the first visible character is no brace, bracket or hex digit |
| FullPipeline.PassesAre | engine/simplicio_compress.py:204-213 | the eight passes of the base list by name and in order, and what each of the modelled ones does |
| LogPipeline.DedupKeepsSettled | engine/simplicio_compress.py:72-201 | dedup makes no run of lines of one prefix that could be folded |
| LogPipeline.CapKeepsSettled | engine/simplicio_compress.py:57-201 | neither does collapsing blank lines |
| LogPipeline.PlainTextPipelineIsIdempotent | engine/simplicio_compress.py:204-241 | the full list with the log fold itself needs one run if no five lines in a row that the first three passes leave share a prefix |
| LogPipeline.LogFoldIsClean | engine/simplicio_compress.py:166-201 | if Python shows the prefixes in single quotes as they are, the log fold leaves the first three passes nothing to do and makes no ESC |
| LogPipeline.LogPipelineIsIdempotentIff | engine/simplicio_compress.py:204-241 | on such log texts, if the JSON pass is rejected, one run gives what the last two passes make of the log fold and is enough exactly if the log fold is then rejected |
| LogPipeline.LogPipelineIsIdempotent | engine/simplicio_compress.py:204-241 | in particular if the log fold was accepted and no marker makes up a run with the lines behind it, or there was no run |
| LogPipelineWitness.LogPipelineIsNotIdempotent | engine/simplicio_compress.py:204-241 | for every headline of forty-six characters or more without a prefix, a text of twelve log lines whose log fold is rejected in the first run and accepted in the second, after dedup |
| PipelineWitness.FivePassesAreNotIdempotent | engine/simplicio_compress.py:13-16 | on a text of five characters with a carriage return the five passes need a second run |
| PipelineWitness.MixedLineEndsAreNotIdempotent | engine/simplicio_compress.py:13-16 | so they do on every word of forty characters or more written twice, with the two kinds of line end, before blank lines |
| ExtraPipeline.ExtraPassesAreNotIdempotent | engine/simplicio_compress_extra.py:170-195 | on any six different tokens of 201 characters, each on its own line, the extra passes need a second run |
| ExtraPipeline.PassesAre | engine/simplicio_compress_extra.py:170-175 | the four passes of the extra list by name and in order, and what each does |
| ExtraIdempotence.MarkersApart | engine/simplicio_compress_extra.py:67-101 | of two neighbouring lines that block folding gives, one is no marker |
| ExtraIdempotence.StretchOfInput | engine/simplicio_compress_extra.py:67-101 | lines in a row that block folding gives, none of them a marker, are lines in a row of its input |
| ExtraIdempotence.TablesStayTight | engine/simplicio_compress_extra.py:38-101 | block folding gives the table pass nothing to do |
| ExtraIdempotence.TokensStayShort | engine/simplicio_compress_extra.py:67-116 | it makes no token to elide, in a text of fewer than 10^179 characters |
| ExtraIdempotence.NoiseStaysSettled | engine/simplicio_compress_extra.py:67-167 | it makes no run of lines equal up to their numbers, if no line looks like its marker |
| ExtraIdempotence.ExtraPassesAreIdempotentIff | engine/simplicio_compress_extra.py:170-195 | on texts with nothing for the last two passes to do once the tables are tightened, and no line like a block marker, the extra passes are idempotent exactly if block folding is rejected, or would be on what it gives |
| ExtraIdempotence.ExtraPassesAreIdempotent | engine/simplicio_compress_extra.py:170-195 | in particular if no block that is kept nests another |
| Hex.HexRoundTrip | engine/simplicio_cache.py:114-137 | bytes written in hex are read back byte for byte |
| Hex.HexDigits | engine/simplicio_cache.py:137 | a byte is written as two of the digits "0123456789abcdef", the high one first |
| Hex.DigitReads | engine/simplicio_cache.py:114 | exactly these digits and their upper-case forms are read, with their value |
| Eviction.EvictionIsExact | engine/simplicio_cache.py:171-190 | eviction tries a least prefix of the entries in time order, none while both bounds hold, until both hold or none is left |
| Eviction.SurvivorsAreTheLongestSuffix | engine/simplicio_cache.py:171-190 | when every unlink succeeds the survivors are the longest most recent suffix that meets both bounds |
| Eviction.AfterIsTheListing | engine/simplicio_cache.py:174-187 | the loop's count and total are those of the entries still there, whatever unlinks failed |
| Eviction.EvictionEnds | engine/simplicio_cache.py:171-190 | with any unlinks failing, at the end both bounds hold or every listed entry left refused to go; nothing goes while both hold |
| Eviction.EvictionIsLru | engine/simplicio_cache.py:171-190 | a removed entry is no newer than one that stays and could have gone |
| Eviction.SurvivesIff | engine/simplicio_cache.py:171-190 | for any times and failing unlinks an entry survives exactly if the walk does not see it, its unlink fails, or it fits together with the newer ones, the tied ones listed after it and those that refuse to go |
| Eviction.NewestSurvives | engine/simplicio_cache.py:171-190 | in particular, when every unlink succeeds the newest entry survives exactly if it fits on its own |
| Cache.ResponseCache.constructor | engine/simplicio_cache.py:41-50 | the cache opens with what the directory holds |
| Cache.ResponseCache.Get | engine/simplicio_cache.py:103-125 | the answer, the touched entry and the counters: with good statistics an answer counts one hit, none counts one miss; a missing, unreadable or corrupt entry is a miss |
| Cache.ResponseCache.Put | engine/simplicio_cache.py:127-155 | a status of 400 or more or a failed write changes nothing, otherwise the entry with the given status, headers and bytes is stored and eviction runs |
| Cache.ResponseCache.Evict | engine/simplicio_cache.py:171-190 | the loop that stops when both bounds hold and goes on past a failed unlink removes exactly the entries of the eviction rule |
| Cache.ResponseCache.Bump | engine/simplicio_cache.py:194-212 | a hit adds one to the hits and nothing to the misses, a miss the other way round; statistics that cannot be read count from zero, ones that cannot be written stay |
| Cache.ResponseCache.Stats | engine/simplicio_cache.py:214-229 | the number and total size of the entries listed, and the counters |
| Cache.ResponseCache.Clear | engine/simplicio_cache.py:231-240 | exactly the files that cannot be removed stay as they were, and the counters go back to zero unless their file stays |
| Cache.EntryRoundTrip | engine/simplicio_cache.py:112-138 | a stored response is decoded to the same status, headers and bytes |
| Cache.RunIsFaithful | engine/simplicio_cache.py:103-155 | after any run, an entry on disk decodes to the last successful put of its key and its time is that of the key's last use |
| Cache.HitIsTheLastPut | engine/simplicio_cache.py:103-155 | after any run, a hit is exactly the last successful put of the key since it was last cleared, and a readable entry always hits |
| Cache.EvictionOnlyLosesHits | engine/simplicio_cache.py:103-190 | with bounds no put can reach the cache is the unbounded map; with any bounds it gives the same answer or misses |
| Cache.EvictionIsByLastUse | engine/simplicio_cache.py:103-190 | over any run, an evicted entry was last used no later than one that stays and could have gone |
| Cache.PutThenGetIff | engine/simplicio_cache.py:103-190 | for any times, listing order and failing unlinks, a response just put is found as it was put exactly if the walk does not see it, its unlink fails, or it fits with what then stands |
| Cache.PutThenGet | engine/simplicio_cache.py:103-155 | in particular, with a newest time and working unlinks, exactly if the record fits the byte bound and one entry is allowed |
| Cache.TiedPutIsLost | engine/simplicio_cache.py:171-190 | of two entries of the same time, in a cache for one, the one just put is lost exactly if it is listed first |
| Cache.ErrorIsNotStored | engine/simplicio_cache.py:129-130 | putting an error status, or a response that does not reach the disk, changes nothing at all |
| Cache.CountersAreRight | engine/simplicio_cache.py:103-229 | over any run with good statistics the hits are the number of lookups since the last wipe that were answered, the misses the number of those that were not |
| Cache.CountersAdd | engine/simplicio_cache.py:194-212 | whatever statistics I/O fails, hits and misses are no more than the lookups since the statistics were wiped, and with good statistics they add up to them |
| CacheKey.KeyOf | engine/simplicio_cache.py:54-83 | the canonical view is built field by field and hashed; any error gives the uncacheable token |
| CacheKey.SameCanonical | engine/simplicio_cache.py:64-79 | two canonical views are equal exactly if model, messages, system, n (absent and 1 alike) and the listed parameters (absent and null alike) agree |
| CacheKey.KeysSeparate | engine/simplicio_cache.py:54-83 | two requests share a key exactly if they agree on these fields, or both have no canonical form and the same model and body address |
| CacheKey.KeyFieldsAre | engine/simplicio_cache.py:28-83 | the same with every field written out: the model given or that of the body, messages, system, temperature, top_p, max_tokens, tools and response_format, where null counts as absent, and n, where what reads as one counts as absent |
| CacheKey.KeyWithoutCount | engine/simplicio_cache.py:54-83 | a request whose n is no number has the uncacheable token as its key |
| CacheKey.OtherFieldsAreIgnored | engine/simplicio_cache.py:54-83 | setting any other field to anything leaves the key unchanged |
| CacheKey.EnvelopesAreIgnored | engine/simplicio_engine.py:404-467 | over any run of the proxy, what is served from the cache does not depend on method, path, provider or headers, neither of the request nor of those before it |
| CacheKey.NoHitCrossesRequests | engine/simplicio_engine.py:408-467 | over any run of the proxy, what is served from the cache was given by upstream, without error, to an earlier cacheable request that agrees on every field of the key |
| CacheKey.CacheableIff | engine/simplicio_cache.py:85-93 | a request is cacheable exactly if its stream is absent, null, false, zero or empty, and so is its temperature, or a string that reads as zero; each JSON case is written out |
| CacheKey.ServedIff | engine/simplicio_engine.py:404-467 | over any run of the proxy, a request is served from the cache exactly if it is of that kind and a readable entry is there for its key; then the request that brought the answer is of that kind too |
| CacheKey.AskedAgain | engine/simplicio_engine.py:404-467 | over any run of the proxy, such a request asked again gets the answer it got from the cache; after a miss the one of upstream if that was no error, reached the disk and was not evicted on the spot; and what it would have got before if nothing was stored |
| Pool.StepKeepsInv | bench/prism_benchmark_852.py:125-168 | every step keeps the invariant of semaphore, active count, peak and invocations |
| Pool.RunKeepsInv | bench/prism_benchmark_852.py:125-168 | in every interleaving the active count is the number of working tasks and never exceeds the cap, and each task was invoked once for each time it began |
| Pool.CompleteRuns | bench/prism_benchmark_852.py:154-171 | a run that cannot go on is finished, after the same number of steps in every order, two of each task being a start and a finish of work |
| Pool.FinishesIff | bench/prism_benchmark_852.py:154-171 | some run finishes exactly if the cap is at least one or there is nothing to do |
| Pool.OverlapIsTight | bench/prism_benchmark_852.py:125-171 | the recorded overlap never exceeds the smaller of cap and number of tasks, and some order reaches it |
| Pool.PeakIsHighest | bench/prism_benchmark_852.py:125-138 | after any run the recorded overlap is the greatest number of tasks that were at work at once |
| Oracle.JudgeIsRight | bench/prism_benchmark_852.py:213-244 | every task accepted and invoked once, and nothing else done, exactly if the oracle says "correct" and the counter has exactly the expected tasks |
| Oracle.JudgeReports | bench/prism_benchmark_852.py:213-236 | which tasks each list of the report names, the number of results that are "accepted", and that "correct" means that no list names any |
| Oracle.MissingInvocationWitness | bench/prism_benchmark_852.py:213-244 | an outcome without any invocation is "correct" |
| Oracle.PoolIsJudgedCorrect | bench/prism_benchmark_852.py:154-171 | when all tasks of the pool are done, in any order, the oracle says "correct" exactly if the task names are distinct, with every task verified and the overlap within bounds |
| Oracle.Serial | bench/prism_benchmark_852.py:141-151 | the serial loop has overlap one and is "correct" exactly if the names are distinct |
| Percentile.NearestRankIsRight | bench/prism_benchmark_852.py:48-53 | the result is a sample, and with k the least number such that n p <= 100 k it is the only number with at least k samples at most it and fewer below it |
| Percentile.NearestRankOutside | bench/prism_benchmark_852.py:48-53 | for a percentile outside 1 to 100 it is the least or the greatest sample, and without samples there is none |
| Percentile.NearestRankOfPermutation | bench/prism_benchmark_852.py:48-53 | it does not depend on the order of the samples |
| Percentile.NearestRankGrows | bench/prism_benchmark_852.py:48-53 | it is monotone in the percentile |
| HelpExplorer.ProbeRoute | bench/cli_help_coverage.py:44-72 | the row of a probed route, whether it is expanded, and the routes this adds |
| HelpExplorer.PopIsSmaller | bench/cli_help_coverage.py:41-71 | a round decreases the counts of pending routes by depth, lexicographically |
| HelpExplorer.Round | bench/cli_help_coverage.py:41-72 | one round keeps the invariant and decreases the measure, for any help oracle |
| HelpExplorer.Explore | bench/cli_help_coverage.py:33-81 | the loop ends; no route is probed twice, every probed route has at most six words and is a seed or a listed child of an expanded route, nothing that had to be probed is left out, and the exit code is 0 exactly if every probed route exited with 0 |
| HelpExplorer.SeedsAre | bench/cli_help_coverage.py:34-37 | the seeds are the entry points and the two forwarded routes, nothing else |
| HelpExplorer.SeedsAreProbed | bench/cli_help_coverage.py:34-72 | at the end each of them was probed |
| HelpExplorer.RowsAreRight | bench/cli_help_coverage.py:48-72 | the status of a row is that of the exit code, or of there being none; it warns exactly if commands are listed and the text was expanded for another route or for none |
| HelpExplorer.ExpandedOnce | bench/cli_help_coverage.py:64-72 | two routes with the same first word and the same help text cannot both have children that were probed because of them |
| HelpExplorer.ParentIsChosen | bench/cli_help_coverage.py:64-72 | a probed route that is no seed has a probed parent that was expanded and lists it |
| HelpExplorer.EveryTextIsExplored | bench/cli_help_coverage.py:64-72 | the children listed by any answering route of fewer than six words are probed, for it or for the one route with the same first word and text |
| MeanRss.AreaBounds | bench/measure_command.py:68-74 | the interval lengths telescope: the area lies between those of the smallest and the largest sample |
| MeanRss.MeanIsBetween | bench/measure_command.py:68-74 | for ordered timestamps there is a mean exactly if time passed, and it lies between any bounds of the samples |
| MeanRss.MeanOfEqualSamples | bench/measure_command.py:68-74 | it is the common value of equal samples |
| MeanRss.MeanOfTwo | bench/measure_command.py:68-74 | the mean of two samples is half their sum; of fewer samples, or of two at one instant, there is none |
| MeanRss.MeansCombine | bench/measure_command.py:68-74 | cut at any sample, the mean of the whole is the span-weighted mean of the parts |

## Left out

- PipelineIdempotence.FivePassesAreIdempotent: of the texts in which a carriage return comes before a line feed, only those of the second result are covered; of the others failing ones are given, and not just which of them fail.
- PipelineCrlf.FivePassesAreIdempotentOnCrlf: lines that repeat and end in a form feed or the like are not covered, as dedup closes their marker with a bare "\n".
- FullPipeline.BasePipelineIsIdempotentIff: nothing is said when the JSON pass is accepted; decoding JSON escapes can make a new rule run.
- LogPipeline.LogPipelineIsIdempotentIff: for texts whose only break is "\n", and prefixes that Python shows as they are; a prefix with a quote, a backslash or a control character is not covered.
- ExtraIdempotence.ExtraPassesAreIdempotentIff: texts with a token to elide, a run of numbered lines to fold or a line like a block marker are not covered; of the first kind failing ones are given.
- Pool.CompleteRuns: a step is a task taking the semaphore, beginning, ending or leaving; a task that raises or is cancelled is not modelled, and neither is the order in which the event loop wakes waiters.
- HelpExplorer.Explore: help texts stand for their hashes, so hash collisions are excluded.
- CacheKey.KeysSeparate: SHA-256, the JSON text and `repr` are taken to be injective.
- Cache.HitIsTheLastPut: operations are taken one after the other; threads, temporary files, sharding, fsync and other processes writing into the directory are not modelled. A clear that cannot remove a file keeps it, and the last put then counts from before.
- `minify_json` is a pass of which only the driver's guarantees are proved, as it depends on Python's `json`.
- Digits are the ASCII ones, while `\d` also matches other decimal digits.
- Python's `repr` is a parameter; that it prints no line break, no NUL and which quotes it uses is assumed where needed.
- The percentage in the compression report is rounded and shown only.
- The stored size of a cache entry is a parameter of the put, as it depends on the JSON text and the time stamp in it.
- `oracle_hash` and the wall times of the benchmark, and the file output of the help explorer, are I/O.
- `children`, which reads subcommands out of a help text, is an arbitrary function in HelpExplorer.
- `_prism` and the other benchmarks call `simplicio_loop` modules that are not part of this model.
- The rest of `measure` samples processes and only the mean is arithmetic.
- The other engine files (audit, capture, init, summarizers) are not modelled.
