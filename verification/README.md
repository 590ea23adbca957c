# Savfox: verified models of the patch engine, configuration trees and session protocols

This project models three parts of the repository in Dafny and proves what they promise.

**The patch engine** (`crates/apply-patch`). Patch text is parsed into hunks and chunks; a
locator of four tiers (exact, ignoring trailing white space, ignoring white space at both ends,
normalised typography) finds blocks of lines; a planner turns chunks into edits; an editor
applies them in reverse order; a commit writes hunk by hunk while a preview reads only the
initial files. A file is a list of lines, the disk a map from paths to contents. The modules are
`Text`, `Seek`, `Patch`, `Edits`, `Planner`, `PlanMeaning`, `Untouched`, `Disk`, `Agreement`,
`AgreementExact`, `Parser`, `Printer`, `PatchExample`, `Tolerance`, `ParserImage`, `StoredPatch`,
`CarriageReturns`, `Heredoc` and `EndToEnd`.

**Tree algebra.** Configuration layers are merged, overridden by dotted paths and traced to
their origins (`Toml`, `Origins`, `StaleOrigins`). Generated JSON schemas are canonicalised and
filtered (`JsonTree`, `Sorting`, `Canonical`, `CanonicalOrder`, `SchemaFilter`, `Variants`,
`SchemaLargest`), and generated TypeScript is split at top-level delimiters (`Splitter`,
`Nesting`).

**Step machines.** The table of callbacks for requests to the client (`Callbacks`), the summary
of a session's turn (`TurnSummary`), the incremental prompts of a WebSocket session
(`DeltaCache`), the recovery from `401 Unauthorized` with its retry loop (`Recovery`). Each
locked section or atomic operation is one step; what other tasks and the network do is an
arbitrary choice at every step. `Fuzzy` holds the subsequence matcher of `crates/common`.

Code that loops or updates fields is a method or a class proved against a specification
function; the theorems are about those functions. Where a promise does not hold of the code, the
code is kept, a lemma gives an input that shows it, and another states exactly when it holds.

Where the code and its own comments differ, the model follows the code:

- A file-ending block is tried only at the end of the file; the comment on `seek_sequence`
  (`crates/apply-patch/src/seek_sequence.rs:4-6`) announces a fallback to `start` that the code
  does not have. `Seek.NoFallback` and `Seek.FallbackExactly` say where that matters, and
  `Planner.EofChunkCanOverlap` shows a consequence.
- Patches are described as transactional (`crates/apply-patch/src/lib.rs:8-10`); the commit is
  not. `Disk.FailureLeavesFilesExactly` says when a failing commit leaves the files alone.
- The lenient mode is said to trim what is inside the heredoc
  (`crates/apply-patch/src/parser.rs:149-151`); the code takes the lines between the first and
  the last as they are. `Heredoc.BlankLineInHeredoc` shows a patch it refuses, and
  `Heredoc.HeredocUnwrapped` says when it does not matter.
- An unexpected first line of a chunk is reported at the following line number when the chunk
  has no marker (`ParserImage.ErrorNamesLine`, `ParserImage.UnexpectedLineMisnamed`).
- A recovery checks the account when it reloads stored credentials, but not when it refreshes
  them, and neither does the renewal of stale credentials before each request
  (`Recovery.AccountKeptExactly`, `Recovery.RenewalCanSwitchAccount`).

## Model

| member | source | states |
|---|---|---|
| `Seek.SeekSequence` | crates/apply-patch/src/seek_sequence.rs:12-110 | the four search loops compute `Seek`: empty pattern gives `start`, a pattern longer than the file gives nothing, a file-ending pattern is tried only at `len - pattern_len` |
| `Seek.ScanExact` | crates/apply-patch/src/seek_sequence.rs:35-39 | the first loop returns the first exact match in the range, or nothing |
| `Seek.ScanTier` | crates/apply-patch/src/seek_sequence.rs:41-107 | each of the three other loops returns the first match of its tier |
| `Seek.CompareAt` | crates/apply-patch/src/seek_sequence.rs:42-51 | the inner `ok` loop is true exactly when every line matches in the tier |
| `Seek.FirstMatchIsLeast` | crates/apply-patch/src/seek_sequence.rs:35-39 | the first match is a match, no earlier index is one, and "none" means no index is one |
| `Seek.TiersNested` | crates/apply-patch/src/seek_sequence.rs:34-107 | a match in one tier is a match in every more permissive tier |
| `Seek.NormalisedExactly` | crates/apply-patch/src/seek_sequence.rs:76-107 | two lines match in the last tier if and only if, trimmed, they have one length and agree at every place up to the written-out classes of dashes, quotes and spaces |
| `Seek.NormaliseCharExactly` | crates/apply-patch/src/seek_sequence.rs:76-94 | two characters are normalised alike if and only if they are equal or in one of those classes |
| `Seek.TypographyIsFound` | crates/apply-patch/src/seek_sequence.rs:76-107 | an en dash, curly quotes and a no-break space are found by their ASCII forms, and a dash is not found by a quote |
| `Text.WhitespaceExactly` | crates/apply-patch/src/seek_sequence.rs:44-57 | what trimming takes off is the written-out Unicode set of white space |
| `Text.LinesByExample` | crates/apply-patch/src/parser.rs:156 | lines end at either kind of line end, keep inner carriage returns, and there is none after the last end |
| `Seek.SeekIsLocated` | crates/apply-patch/src/seek_sequence.rs:12-110 | the result is the least index of the strictest tier with any match in range; it succeeds if and only if the normalised tier has a match |
| `Seek.SeekInBounds` | crates/apply-patch/src/seek_sequence.rs:12-110 | every result is in bounds, and at or after `start` unless the pattern is file-ending |
| `Seek.FallbackExactly` | crates/apply-patch/src/seek_sequence.rs:4-33 | leaving out the documented fallback for file-ending blocks makes no difference if and only if the block matches at the end or nowhere from `start` on |
| `Seek.NoFallback` | crates/apply-patch/src/seek_sequence.rs:4-33 | a file and a block for which it does |
| `PlanMeaning.LocatedExactly` | crates/apply-patch/src/seek_sequence.rs:12-110 | that description has exactly one solution, and it is the locator's answer |
| `Edits.SortIsStableSort` | crates/apply-patch/src/lib.rs:479 | the sort by start index is ordered, keeps the same edits, and keeps edits with one start in their order |
| `Edits.StartingAtExactly` | crates/apply-patch/src/lib.rs:479 | the edits that start at one index are all of them and no others |
| `Edits.ApplyReplacements` | crates/apply-patch/src/lib.rs:486-510 | the reverse-order loop computes `ApplyReversed`; no remove or insert leaves the current length |
| `Edits.RemoveLines` | crates/apply-patch/src/lib.rs:497-501 | the removal loop takes out `old_len` lines, or as many as there are |
| `Edits.InsertLines` | crates/apply-patch/src/lib.rs:504-506 | the insertion loop puts the new lines at the start index in order |
| `Edits.ReverseOrderIsSplice` | crates/apply-patch/src/lib.rs:486-510 | for non-overlapping edits the in-place reverse order equals one left-to-right splice of the original |
| `Edits.SpliceExactlyWhenDisjoint` | crates/apply-patch/src/lib.rs:486-510 | the editor equals the splice for every text of the new lines if and only if no edit reaches into the next |
| `Edits.OverlapLosesLines` | crates/apply-patch/src/lib.rs:486-510 | whenever ranges overlap, there is a choice of new lines of which the editor loses one |
| `Edits.SpliceKeepsNewLines` | crates/apply-patch/src/lib.rs:486-510 | the splice contains every new line as often as the edits do |
| `Edits.SortedDisjointIffCompatible` | crates/apply-patch/src/lib.rs:479-510 | sorted edits are disjoint if and only if the planned ones are pairwise compatible |
| `Edits.IdentityEdits` | crates/apply-patch/src/lib.rs:486-510 | edits that put back what they take out leave the lines unchanged, overlapping or not |
| `Planner.ComputeReplacements` | crates/apply-patch/src/lib.rs:394-482 | the chunk loop computes `Plan`, and every plan is sorted, in bounds and has one edit per chunk |
| `Planner.LocateOne` | crates/apply-patch/src/lib.rs:402-477 | one pass of the loop computes `PlanChunk` |
| `Planner.SkipContext` | crates/apply-patch/src/lib.rs:405-420 | the context line is sought from the running index and the index moves past it |
| `Planner.LocateChunk` | crates/apply-patch/src/lib.rs:445-476 | old lines are sought as written and, failing that, without a final blank line on either side |
| `Planner.PlanIsSafe` | crates/apply-patch/src/lib.rs:399-509 | for all files and all chunk lists, overlapping or not, the plan is in bounds and sorted |
| `Planner.ForwardWithoutEof` | crates/apply-patch/src/lib.rs:399-476 | without file-ending chunks every located chunk is at or after the running index |
| `Planner.ForwardPlanIsCompatible` | crates/apply-patch/src/lib.rs:399-480 | a forward plan has no overlaps, unless lines are added before a final blank line |
| `Planner.PlannedEditsSplice` | crates/apply-patch/src/lib.rs:394-510 | the sorted plan applied in reverse equals one splice of the original, if every file-ending match is at or after the running index and no addition lands before a final blank line |
| `Planner.PlannedEditsSpliceExactly` | crates/apply-patch/src/lib.rs:394-510 | for any plan, that equality holds for all new texts if and only if the planned ranges are pairwise compatible |
| `Planner.EofChunkCanOverlap` | crates/apply-patch/src/seek_sequence.rs:29-33 | a file-ending chunk can cover an earlier edit, whose text is lost |
| `Planner.AdditionCanOverlap` | crates/apply-patch/src/lib.rs:425-430 | an addition before a final blank line can land inside another edit |
| `Planner.DeriveNewContents` | crates/apply-patch/src/lib.rs:356-389 | the contents are split, planned, edited and joined; the result is empty or ends in a newline |
| `Planner.TextEndsWithNewline` | crates/apply-patch/src/lib.rs:380-384 | every written text is empty or ends in a newline |
| `Planner.NoOpKeepsFileExactly` | crates/apply-patch/src/lib.rs:370-388 | edits that change nothing keep the contents if and only if they were empty or ended in exactly one newline after something else |
| `Planner.NoOpLosesBlankLine` | crates/apply-patch/src/lib.rs:370-388 | a line followed by a blank line loses the blank line to a chunk that replaces the line by itself |
| `Planner.OneLineUpdate` | crates/apply-patch/src/lib.rs:356-389 | a file of one line becomes a file of the line that replaces it |
| `PlanMeaning.PlanChunkExactly` | crates/apply-patch/src/lib.rs:402-477 | a chunk gives an edit and a next index if and only if they are what the chunk stands for: best context match, then the best match of the old lines, whole or (only if the whole has none) without their final blank line |
| `PlanMeaning.PlanChunkFailsExactly` | crates/apply-patch/src/lib.rs:405-476 | a chunk fails for its context, or for its old lines, exactly when the most permissive tier has no match for it in either form |
| `PlanMeaning.PlanErrorTells` | crates/apply-patch/src/lib.rs:410-475 | the error tells the context line or the old lines that were sought |
| `PlanMeaning.PlanFromExactly` | crates/apply-patch/src/lib.rs:399-477 | the whole plan is determined chunk by chunk by that meaning |
| `PlanMeaning.EditsReplaceShownLines` | crates/apply-patch/src/lib.rs:445-476 | every planned range holds lines that its chunk showed, up to white space and typography, perhaps without a final blank line |
| `Untouched.PlanKeepsOutsideLines` | crates/apply-patch/src/lib.rs:394-510 | for all files and chunks, overlapping or not, every line of the file outside all planned ranges is still there after the edit, in order |
| `Untouched.EditorKeepsOutside` | crates/apply-patch/src/lib.rs:486-510 | the editor keeps those lines whenever overlapping edits reach the end of the file |
| `Untouched.PlanPairs` | crates/apply-patch/src/lib.rs:399-479 | planned edits overlap only if one of them reaches the end of the file |
| `Untouched.SortedEditsCanLoseLine` | crates/apply-patch/src/lib.rs:486-510 | edits that are merely sorted and in bounds can make the editor lose a line outside them |
| `Disk.FileSystem.constructor` | crates/apply-patch/src/lib.rs:287-292 | the file system starts from the given files |
| `Disk.FileSystem.ApplyHunksToFiles` | crates/apply-patch/src/lib.rs:287-347 | the commit loop leaves exactly the files and outcome of the sequential commit, and fails on an empty patch |
| `Disk.FileSystem.ApplyHunk` | crates/apply-patch/src/lib.rs:296-339 | one hunk is made, or fails and changes nothing; a move writes, then removes the source |
| `Disk.PreviewChanges` | crates/apply-patch/src/invocation.rs:154-202 | the preview loop computes the changes from the initial files and writes nothing |
| `Disk.CommitHunkExactly` | crates/apply-patch/src/lib.rs:296-339 | what each kind of hunk needs and what it leaves, path by path, everything else untouched |
| `Disk.EmptyPatchFails` | crates/apply-patch/src/lib.rs:288-290 | an empty patch is an error and changes nothing |
| `Disk.PathsResolve` | crates/apply-patch/src/invocation.rs:139-155 | relative paths are joined to the directory, absolute ones replace it |
| `Agreement.PreviewShowsDeleted` | crates/apply-patch/src/invocation.rs:161-173 | every previewed deletion holds the contents the file has |
| `Agreement.PreviewCommitAgreement` | crates/apply-patch/src/invocation.rs:154-202 | on pairwise distinct paths the commit succeeds if and only if the preview does, and leaves exactly the files the preview described |
| `Agreement.OrderlyAgreement` | crates/apply-patch/src/invocation.rs:154-202 | success agrees whenever the initial files decide every hunk (an update needs an untouched path, a deletion one known to be there), and the description is exact if moreover what the changes say lasts |
| `Agreement.SuccessFrom` | crates/apply-patch/src/lib.rs:295-341 | from any point on the commit succeeds if and only if the preview of the initial files does, when these decide every hunk |
| `AgreementExact.SuccessAgreesExactly` | crates/apply-patch/src/invocation.rs:154-202 | success agrees for all files and all contents if and only if the initial files decide every hunk, a condition on the paths alone |
| `AgreementExact.AgreementExactly` | crates/apply-patch/src/invocation.rs:154-202 | success and description agree for all files and all contents if and only if the initial files decide every hunk and what the changes say lasts |
| `AgreementExact.DisagreeingFiles` | crates/apply-patch/src/invocation.rs:154-202 | for any other list of hunks, files and contents on which exactly one of the two succeeds |
| `Agreement.DescriptionNeedsLastingResults` | crates/apply-patch/src/lib.rs:320-341 | a file moved away and then written over: both succeed and the description is wrong |
| `Disk.DescriptionIsUnique` | crates/apply-patch/src/invocation.rs:154-202 | at most one file system fits a preview's description |
| `Disk.CommitReportsEveryHunk` | crates/apply-patch/src/lib.rs:277-347 | the affected paths of a successful commit list every hunk once, in order, under its kind, moves under the new path |
| `Disk.ReportByExample` | crates/apply-patch/src/lib.rs:293-346 | the reported paths of one hunk of each kind and a move |
| `Disk.FailureKeepsPrefix` | crates/apply-patch/src/lib.rs:295-341 | a failing commit leaves the files as the hunks before the failing one made them |
| `Disk.CommitIsNotTransactional` | crates/apply-patch/src/lib.rs:8-10 | a concrete patch that fails after writing a file, on distinct paths |
| `Disk.FailureLeavesFilesExactly` | crates/apply-patch/src/lib.rs:287-347 | a failing commit on distinct paths leaves the files unchanged if and only if every hunk before the first impossible one asks for what is already there |
| `Agreement.AgreementNeedsDistinctPaths` | crates/apply-patch/src/invocation.rs:154-202 | add-then-delete of one path commits although its preview fails: the second hunk depends on the first |
| `Disk.SelfMoveLosesFile` | crates/apply-patch/src/lib.rs:320-332 | a move onto its own source removes the file |
| `Parser.ParseUpdateFileChunk` | crates/apply-patch/src/parser.rs:344-435 | the chunk parser computes `ParseChunk`, whose line count is positive and within the input |
| `Parser.ParseChunkLines` | crates/apply-patch/src/parser.rs:386-432 | the loop over change lines, with its end-of-file and first-line cases |
| `Parser.ParseOneHunk` | crates/apply-patch/src/parser.rs:249-342 | the hunk parser computes `ParseHunk` for add, delete, update and move, and its error |
| `Parser.ParseAddedLines` | crates/apply-patch/src/parser.rs:254-265 | the loop over added lines collects their text and stops at the first other line |
| `Parser.ParseUpdateChunks` | crates/apply-patch/src/parser.rs:295-317 | the loop over an update's chunks |
| `Parser.ParseNextChunk` | crates/apply-patch/src/parser.rs:297-317 | one pass: skip a blank line, stop at `***`, or take one chunk |
| `Parser.ParsePatchText` | crates/apply-patch/src/parser.rs:155-245 | boundary check, heredoc leniency, hunks and stored text |
| `Parser.ParseHunkLines` | crates/apply-patch/src/parser.rs:169-177 | the hunk loop with its running line number |
| `Parser.PatchLinesBounded` | crates/apply-patch/src/parser.rs:157-170 | lines that pass the boundary check are at least two, so the slice between the markers exists |
| `Heredoc.StrictExactly` | crates/apply-patch/src/parser.rs:227-245 | strict mode accepts if and only if the first and last lines are the markers, but for white space around them |
| `Heredoc.LenientExactly` | crates/apply-patch/src/parser.rs:197-225 | lenient mode accepts more in one case only: at least four lines, the first one of the three literal openers, the last one ending in `EOF`, the lines between accepted strictly |
| `Printer.RoundTrip` | crates/apply-patch/src/parser.rs:4-21 | printing any well-formed patch document by the grammar and parsing it in either mode gives the hunks it stands for and stores the same text |
| `Printer.HunksRoundTrip` | crates/apply-patch/src/parser.rs:155-435 | every list of printable hunks is the parse of its own printed text |
| `Printer.ChunkPrinted` | crates/apply-patch/src/parser.rs:344-435 | a printed chunk followed by a marker or hunk header parses to itself, using exactly its own lines |
| `Printer.HunkPrinted` | crates/apply-patch/src/parser.rs:249-342 | a printed hunk followed by another header parses to itself, using exactly its own lines |
| `PatchExample.PatchByExample` | crates/apply-patch/src/parser.rs:4-21 | a literal patch with every kind of hunk, chunk header and change line, a move and an end-of-file marker parses to the expected hunks |
| `Tolerance.PaddedHeaderParses` | crates/apply-patch/src/parser.rs:250-251 | white space around a header line makes no difference |
| `Tolerance.BlankLinesSkipped` | crates/apply-patch/src/parser.rs:297-303 | blank lines before a chunk are counted and otherwise skipped |
| `Tolerance.BlankAfterEof` | crates/apply-patch/src/parser.rs:297-317 | a chunk closed by the end-of-file marker, a blank line, and whatever chunks follow |
| `ParserImage.ObtainableExactly` | crates/apply-patch/src/parser.rs:155-435 | a list of hunks is the parse of some patch (no line ending in CR) if and only if every hunk is printable |
| `ParserImage.ParsedHunksHaveNormalForm` | crates/apply-patch/src/parser.rs:155-435 | every parsed patch, however padded or wrapped, has a printed normal form that both modes parse to the same hunks |
| `ParserImage.ErrorNamesLine` | crates/apply-patch/src/parser.rs:168-435 | every failure is at the markers or names a line of the patch that the problem is about; an unexpected first line of a chunk is named exactly if the chunk has a marker, otherwise the line after it is |
| `ParserImage.UnexpectedLineMisnamed` | crates/apply-patch/src/parser.rs:416-424 | a patch whose third line is at fault and whose error names the fourth |
| `StoredPatch.StoredPatchMeans` | crates/apply-patch/src/parser.rs:155-184 | the stored text re-parses strictly to the hunks of its lines with one trailing CR removed from each |
| `StoredPatch.StoredPatchFaithful` | crates/apply-patch/src/parser.rs:155-245 | with no line ending in CR, the stored text of a strict or lenient parse re-parses strictly to the same hunks |
| `CarriageReturns.StoredPatchFaithfulExactly` | crates/apply-patch/src/parser.rs:155-435 | the stored text re-parses strictly to the same hunks if and only if no text taken from a line (added or changed line, context, move path) ends in CR and no chunk is ended by a lone CR |
| `StoredPatch.CarriageReturnIsLost` | crates/apply-patch/src/parser.rs:155-184 | a line ending in two CRs makes the stored text parse to other contents |
| `StoredPatch.LenientExtendsStrict` | crates/apply-patch/src/parser.rs:155-245 | lenient mode agrees with strict mode wherever strict mode succeeds |
| `Heredoc.HeredocUnwrapped` | crates/apply-patch/src/parser.rs:197-225 | a strictly parsable patch wrapped as a heredoc parses leniently to the same hunks if and only if the white space that trimming would take off its ends holds no newline; unpadded, the whole result is the same |
| `Heredoc.BlankLineInHeredoc` | crates/apply-patch/src/parser.rs:149-151 | with a blank line after the heredoc marker every patch is refused, although what is inside parses strictly |
| `EndToEnd.ChunksTurnLines` | crates/apply-patch/src/lib.rs:394-510 | chunks made from an unambiguous difference turn the lines of the first file into those of the second |
| `EndToEnd.ContentsTurned` | crates/apply-patch/src/lib.rs:356-389 | and the contents, through splitting and joining |
| `EndToEnd.DiffPatchTurnsFile` | crates/apply-patch/src/lib.rs:191-347 | written as patch text, parsed in either mode and committed, the difference leaves the second file and reports it modified |
| `Toml.MergeValues` | crates/config/src/merge.rs:4-18 | the recursive loop over the overlay's entries computes `Merge` |
| `Toml.MergeIdempotent` | crates/config/src/merge.rs:4-18 | merging a value onto itself changes nothing |
| `Toml.MergeReplacesExactly` | crates/config/src/merge.rs:4-18 | merging leaves nothing of the base if and only if the overlay covers it |
| `Toml.MergeAssociatesExactly` | crates/config/src/merge.rs:4-18 | merging is associative on a triple if and only if, wherever both outer values have tables, the middle one is not a non-table that hides base entries |
| `Toml.MergeCanNotAssociate` | crates/config/src/merge.rs:4-18 | a value between two tables, grouped both ways, gives two results |
| `Toml.BuildCliOverridesLayer` | crates/config/src/overrides.rs:9-16 | the override loop computes the layer |
| `Toml.OverrideSets` | crates/config/src/overrides.rs:18-51 | after an override its path holds its value |
| `Toml.OverrideFrame` | crates/config/src/overrides.rs:18-51 | paths that neither lie on the way to the overridden path nor go on from it keep their values |
| `Toml.OverrideMakesTables` | crates/config/src/overrides.rs:18-51 | on the way to the overridden path there are tables afterwards |
| `Toml.OverrideIsMergeExactly` | crates/config/src/overrides.rs:18-51 | setting a path in place equals merging the one-override layer if and only if the value covers what was at the path; non-table values always do |
| `Toml.TableOverrideIsNoLayer` | crates/config/src/overrides.rs:18-51 | a table as override value replaces what a layer with that value would add to |
| `Toml.OverridesAreLayers` | crates/config/src/overrides.rs:9-51 | a list of non-table overrides is the fold of its one-override layers |
| `Toml.DottedPathNests` | crates/config/src/overrides.rs:18-51 | a dotted path becomes nested tables |
| `Toml.LaterOverrideWins` | crates/config/src/overrides.rs:9-16 | of two overrides of one path the later one counts |
| `Origins.RecordOrigins` | crates/config/src/fingerprint.rs:8-35 | the recursion that pushes and pops the path marks exactly the dotted names of the value's leaves |
| `Origins.RecordTable` | crates/config/src/fingerprint.rs:8-35 | the same for the entries of a table |
| `Origins.RecordArray` | crates/config/src/fingerprint.rs:8-35 | the same for the items of an array |
| `Origins.DecimalExactly` | crates/config/src/fingerprint.rs:8-35 | an array index is recorded in decimal digits without leading zeros |
| `Origins.ComputeEffective` | crates/core/src/config_loader/state.rs:231-249 | one pass over the layers yields the effective configuration and its origins |
| `Origins.NameHasLeaf` | crates/config/src/fingerprint.rs:8-35 | every recorded name is the dotted name of a leaf |
| `Origins.LeafHasName` | crates/config/src/fingerprint.rs:8-35 | every leaf's dotted name is recorded |
| `Origins.OverlayLeafWins` | crates/config/src/merge.rs:4-18 | every leaf of the overlay is in the merge |
| `Origins.MergedLeafSource` | crates/config/src/merge.rs:4-18 | every leaf of the merge is the overlay's or else the base's |
| `Origins.EffectiveLeaf` | crates/core/src/config_loader/state.rs:231-249 | every effective leaf is that of the last layer with a leaf at its path |
| `Origins.OriginIsLastNamed` | crates/config/src/fingerprint.rs:8-35 | the recorded origin of a name is the last layer with a leaf of that name |
| `Origins.OriginExactly` | crates/core/src/config_loader/state.rs:231-249 | the recorded layer owns the effective leaf if and only if no later layer has another leaf of the same dotted name |
| `Origins.Provenance` | crates/core/src/config_loader/state.rs:231-249 | with dotless keys every effective leaf is recorded with, and equal to, the leaf of the last layer that has one there |
| `Origins.DottedKeyMisattributes` | crates/config/src/fingerprint.rs:8-35 | a dotted key is credited with a nested setting of another layer |
| `StaleOrigins.MergedLeafExactly` | crates/config/src/merge.rs:4-18 | a merge has a leaf at a path if and only if the overlay has one, or the base has one and the overlay says nothing about the path |
| `StaleOrigins.EffectiveLeafExactly` | crates/core/src/config_loader/state.rs:231-249 | the effective configuration has a leaf at a path if and only if no layer above the last one with a leaf there says anything about the path |
| `StaleOrigins.RecordedIsEffectiveExactly` | crates/core/src/config_loader/state.rs:231-249 | with dotless keys a recorded name belongs to an effective setting if and only if the setting is not hidden |
| `StaleOrigins.NoStaleOriginsExactly` | crates/core/src/config_loader/state.rs:231-249 | every recorded name is the name of an effective setting if and only if no layer hides a setting of another for good |
| `StaleOrigins.HiddenSettingKeepsOrigin` | crates/config/src/fingerprint.rs:8-35 | a value in place of a table: the setting is gone and its origin is still recorded |
| `Canonical.CanonicalizeJson` | crates/app-server-protocol/src/schema_fixtures.rs:93-149 | the recursive procedure computes `Canon`: keyable arrays and all objects sorted at every depth |
| `Canonical.CanonicalizeItems` | crates/app-server-protocol/src/schema_fixtures.rs:115-136 | the items of an array are canonicalised one by one, in the order given |
| `Canonical.CanonicalizeEntries` | crates/app-server-protocol/src/schema_fixtures.rs:138-146 | the entries of an object are sorted by key and canonicalised one by one |
| `Canonical.SortKeyCanon` | crates/app-server-protocol/src/schema_fixtures.rs:151-168 | canonicalising an item does not change its sort key |
| `Canonical.EquivalentSameCanon` | crates/app-server-protocol/src/schema_fixtures.rs:93-168 | values that differ by entry order and by order of arrays of sortable items, at any depth, have one canonical form |
| `Canonical.SameCanonEquivalent` | crates/app-server-protocol/src/schema_fixtures.rs:93-168 | values with one canonical form differ only that way |
| `Canonical.CanonDecidesEquivalence` | crates/app-server-protocol/src/schema_fixtures.rs:93-168 | both directions, for a serialisation that tells well-formed values apart |
| `Canonical.CanonIdempotent` | crates/app-server-protocol/src/schema_fixtures.rs:93-168 | canonicalising twice is canonicalising once, for every value and every serialiser |
| `Canonical.CanonIsEquivalent` | crates/app-server-protocol/src/schema_fixtures.rs:93-168 | a value is equivalent to its canonical form, which keeps distinct keys, for every serialiser |
| `Canonical.SortKeyExactly` | crates/app-server-protocol/src/schema_fixtures.rs:151-168 | the items with a sort key are exactly scalars and the objects with a text under `$ref` or `title` |
| `CanonicalOrder.ArrayOrder` | crates/app-server-protocol/src/schema_fixtures.rs:115-136 | canonical items of a sortable array stand in order: by kind (booleans, numbers, null, references, strings, titled objects), then by text, then by serialisation |
| `CanonicalOrder.StringsAscend` | crates/app-server-protocol/src/schema_fixtures.rs:115-136 | arrays of strings come out in ascending order |
| `CanonicalOrder.ObjectOrder` | crates/app-server-protocol/src/schema_fixtures.rs:138-146 | the entries of a canonical object stand in ascending order of their keys |
| `CanonicalOrder.LeExactly` | crates/app-server-protocol/src/schema_fixtures.rs:127-134 | the order on strings is that of prefixes and first differing characters |
| `Sorting.SortIgnoresOrder` | crates/app-server-protocol/src/schema_fixtures.rs:125-136 | reorderings of one list sort to one list when equal keys mean equal elements |
| `Splitter.Scanner.constructor` | crates/app-server-protocol/src/export.rs:802-807 | a scanner starts at top level |
| `Splitter.Scanner.ObserveChar` | crates/app-server-protocol/src/export.rs:809-843 | one character updates depths, string and escape state as `Observe` says |
| `Splitter.SplitTopLevelMulti` | crates/app-server-protocol/src/export.rs:680-699 | the index loop with its moving `start` computes `SplitTop` |
| `Splitter.TopIsInitial` | crates/app-server-protocol/src/export.rs:802-862 | at a split point the scanner is back in its initial state |
| `Splitter.ScanYieldsParts` | crates/app-server-protocol/src/export.rs:680-699 | every part read on its own is one part, and only the last may be left open |
| `Splitter.FilterSurvivesReparse` | crates/app-server-protocol/src/export.rs:680-699 | for every text and predicate, splitting, filtering, joining and splitting again gives exactly the filtered parts |
| `Splitter.FilteredExportsReparse` | crates/app-server-protocol/src/export.rs:221-229 | in particular for union arms joined by a bar and for fields joined by a comma |
| `Nesting.SplitsAtCuts` | crates/app-server-protocol/src/export.rs:680-699 | for every text the parts are the non-blank pieces between the delimiters outside strings and brackets: all of those and no others |
| `Nesting.ReadNode` | crates/app-server-protocol/src/export.rs:809-843 | reading a well-nested group or an escaped string literal returns the scanner to its state and never splits |
| `Nesting.BracketsCount` | crates/app-server-protocol/src/export.rs:809-843 | in code every kind of bracket is counted for itself and an unmatched closer changes nothing |
| `Nesting.OtherCharacters` | crates/app-server-protocol/src/export.rs:809-843 | what quotes, backslashes and all other characters do, in code and in strings |
| `Nesting.ArrowIsNeutral` | crates/app-server-protocol/src/export.rs:837-840 | a delimiter after the arrow of a function type still splits |
| `Nesting.NestedPartsSplit` | crates/app-server-protocol/src/export.rs:680-699 | well-nested parts joined by a delimiter split into exactly those parts, whatever they hold inside brackets and strings |
| `SchemaFilter.StripFields` | crates/app-server-protocol/src/export.rs:308-340 | the recursive pass computes `Strip` |
| `SchemaFilter.PruneMethods` | crates/app-server-protocol/src/export.rs:436-451 | the retain-then-descend pass computes `Prune` |
| `Variants.VariantExactly` | crates/app-server-protocol/src/export.rs:453-476 | the variants pruned are exactly the object schemas whose `method` property names an experimental method: by a text `const`, or without one by an `enum` of that single text |
| `SchemaFilter.StripCleans` | crates/app-server-protocol/src/export.rs:308-340 | afterwards no `properties` object or `required` array at any depth names an experimental field |
| `SchemaFilter.StripFixed` | crates/app-server-protocol/src/export.rs:308-340 | a value without experimental fields is left as it is |
| `SchemaFilter.PruneMakesVariantExactly` | crates/app-server-protocol/src/export.rs:436-476 | pruning turns a kept item into an experimental method if and only if its enum shrinks to one experimental name |
| `SchemaFilter.PruneCleansExactly` | crates/app-server-protocol/src/export.rs:436-476 | no array holds an experimental method afterwards if and only if no kept item was of that kind |
| `SchemaFilter.PruneFixed` | crates/app-server-protocol/src/export.rs:436-452 | a value is left as it is if and only if it holds no experimental method |
| `SchemaFilter.PruneItemsFixed` | crates/app-server-protocol/src/export.rs:436-442 | an array is left as it is if and only if it holds no variant and its items are left as they are |
| `SchemaFilter.PruneKeepsCleanFields` | crates/app-server-protocol/src/export.rs:436-452 | pruning brings no experimental field back |
| `SchemaFilter.OneRunCanLeaveMethod` | crates/app-server-protocol/src/export.rs:436-476 | a concrete schema that one run leaves with an experimental method and a second run cleans |
| `SchemaFilter.FilterSchemaExactly` | crates/app-server-protocol/src/export.rs:300-301 | after both passes fields are always clean; methods are clean, and a second run changes nothing, each if and only if no kept item was about to become a variant |
| `SchemaFilter.FilterSchemaComplete` | crates/app-server-protocol/src/export.rs:300-301 | schemas whose enums hold scalars are completely filtered and a second run changes nothing |
| `SchemaLargest.StripIsLargest` | crates/app-server-protocol/src/export.rs:308-340 | any part of the schema without experimental fields survives stripping |
| `SchemaLargest.PruneIsLargest` | crates/app-server-protocol/src/export.rs:436-476 | any part obtained by leaving objects out of arrays and without experimental methods survives pruning |
| `SchemaLargest.FiltersAreLargest` | crates/app-server-protocol/src/export.rs:308-340 | each pass returns the largest clean part of its input |
| `Callbacks.OutgoingMessageSender.constructor` | crates/app-server/src/outgoing_message.rs:23-29 | the sender starts in the initial state |
| `Callbacks.OutgoingMessageSender.AllocateId` | crates/app-server/src/outgoing_message.rs:43 | taking a number is the Begin step; the counter wraps at 64 bits |
| `Callbacks.OutgoingMessageSender.Register` | crates/app-server/src/outgoing_message.rs:46-49 | inserting the callback is the Insert step |
| `Callbacks.OutgoingMessageSender.RetractRequest` | crates/app-server/src/outgoing_message.rs:53-57 | removing the entry after a failed send is the Retract step |
| `Callbacks.OutgoingMessageSender.NotifyClientResponse` | crates/app-server/src/outgoing_message.rs:61-77 | a response removes the entry and delivers to that callback only |
| `Callbacks.OutgoingMessageSender.NotifyClientError` | crates/app-server/src/outgoing_message.rs:79-93 | an error removes the entry and delivers nothing |
| `Callbacks.OutgoingMessageSender.CancelRequest` | crates/app-server/src/outgoing_message.rs:95-101 | a cancellation removes the entry and tells whether there was one |
| `Callbacks.TableOkAlways` | crates/app-server/src/outgoing_message.rs:39-101 | in every interleaving numbers in use are distinct and the table holds calls only under their own identifier |
| `Callbacks.CallbacksAreIndependent` | crates/app-server/src/outgoing_message.rs:39-101 | in every interleaving the shared table and log show for each call exactly the fate its own events decide |
| `Callbacks.IdentifiersIssuedOnce` | crates/app-server/src/outgoing_message.rs:43 | in every run two calls have one identifier if and only if the counter went round between them, which it does not up to 2^64 calls |
| `Callbacks.IdentifierRepeats` | crates/app-server/src/outgoing_message.rs:43 | a run of one call more, in which the first and the last call have one identifier |
| `Callbacks.CounterByExample` | crates/app-server/src/outgoing_message.rs:43 | the 64-bit counter at the places where it turns |
| `Callbacks.ResultComesFromOwnResponse` | crates/app-server/src/outgoing_message.rs:61-77 | a callback gets at most one result, from a response with its identifier that came while it was pending |
| `Callbacks.WireRequestIsAnswerable` | crates/app-server/src/outgoing_message.rs:39-59 | a request on the wire has its callback registered or already settled by an answer with its identifier |
| `TurnSummary.TurnSummaryStore.constructor` | crates/app-server/src/savfox_message_processor/mod.rs:47-54 | the store starts empty |
| `TurnSummary.TurnSummaryStore.StartFileChange` | crates/app-server/src/bespoke_event_handling.rs:89-108 | the locked section inserts the item and tells whether it was the first |
| `TurnSummary.TurnSummaryStore.CompleteFileChange` | crates/app-server/src/bespoke_event_handling.rs:1027-1047 | the locked section forgets the item |
| `TurnSummary.TurnSummaryStore.HandleError` | crates/app-server/src/bespoke_event_handling.rs:1202-1209 | the error becomes the last error |
| `TurnSummary.TurnSummaryStore.CompleteTurn` | crates/app-server/src/bespoke_event_handling.rs:1107-1129 | the summary is removed and its last error decides the status |
| `TurnSummary.StoreRemembersLatestError` | crates/app-server/src/bespoke_event_handling.rs:1202-1209 | after any trace the remembered error is the latest one of the running turn |
| `TurnSummary.StoreRemembersOpenStarts` | crates/app-server/src/bespoke_event_handling.rs:89-108 | after any trace an item is remembered exactly while a start of it is open |
| `TurnSummary.CompletionReportsLatestError` | crates/app-server/src/bespoke_event_handling.rs:1115-1129 | in every trace a completion reports failure with a message if and only if that is the session's latest non-rollback error since its previous completion or abort |
| `TurnSummary.StartAnnouncedOnce` | crates/app-server/src/bespoke_event_handling.rs:550-585 | a start is announced if and only if no earlier start of the item is open |
| `TurnSummary.AnnouncementsAreSeparated` | crates/app-server/src/bespoke_event_handling.rs:89-108 | between two announcements of one item it was completed or the turn ended |
| `TurnSummary.ClientIsTold` | crates/app-server/src/bespoke_event_handling.rs:550-585 | every error but a failed rollback is shown, every completed file change and every interruption is told, whatever is remembered |
| `TurnSummary.EntriesExactly` | crates/app-server/src/bespoke_event_handling.rs:1107-1147 | a session has a summary exactly while its running turn has had an error or a file change |
| `TurnSummary.SessionsAreIndependent` | crates/app-server/src/bespoke_event_handling.rs:1107-1147 | a session's summary is what its own events alone would leave |
| `DeltaCache.WebSocketSession.constructor` | crates/core/src/client.rs:189-200 | a session starts with nothing sent |
| `DeltaCache.WebSocketSession.Stream` | crates/core/src/client.rs:1140-1177 | one attempt prepares a create or an append, then may find no connection, a replaced one, or a send that fails before or after the server received it; the record changes only on delivery |
| `DeltaCache.PrepareExactly` | crates/core/src/client.rs:713-793 | a request appends `rest` if and only if the last prompt and `rest` are not empty and together are the new prompt; every other prompt goes out whole |
| `DeltaCache.AppendsExactly` | crates/core/src/client.rs:713-793 | the same for every attempt of a run, over the latest delivered prompt |
| `DeltaCache.ServerHoldsPromptExactly` | crates/core/src/client.rs:713-793 | in every run the record is the latest delivered prompt, and what reached the server since the last `response.create` makes up that prompt if and only if the attempts kept it in step: replaced connections and half-failed sends break it, a delivered full prompt restores it |
| `DeltaCache.ServerHoldsCopy` | crates/core/src/client.rs:756-793 | in every run the server holds exactly the inputs that reached it since the last `response.create` on its connection, in order |
| `DeltaCache.UnreplacedConnectionAgrees` | crates/core/src/client.rs:713-793 | on one unreplaced connection without half-failed sends, the inputs since the last create concatenate to the latest prompt |
| `DeltaCache.ReplacedConnectionLosesPrompt` | crates/core/src/client.rs:1140-1177 | two prompts after which the replaced connection holds only the last item |
| `DeltaCache.ReceivedFailureRepeatsItems` | crates/core/src/client.rs:1140-1177 | three attempts after which the server holds an item twice |
| `Recovery.UnauthorizedRecovery.constructor` | crates/core/src/auth.rs:938-960 | mode, expected account and first step come from the cached credentials |
| `Recovery.UnauthorizedRecovery.NextStep` | crates/core/src/auth.rs:981-1018 | one step of the machine, with reload, refresh and external refresh as the source has them |
| `Recovery.NextLowersRank` | crates/core/src/auth.rs:981-1018 | a successful step strictly lowers the rank; a failing one changes nothing |
| `Recovery.ReloadKeepsAccount` | crates/core/src/auth.rs:1126-1148 | in every run at most one install comes from a reload; only a renewal can come before it, it never happens in external mode, and it is of the known account the call started with |
| `Recovery.InstallsExactly` | crates/core/src/auth.rs:981-1018 | everything a call puts into the cache, in order: a renewal of stale credentials at each request made, what a matching reload found after the first, and what was stored after the one refresh that worked |
| `Recovery.AccountKeptExactly` | crates/core/src/auth.rs:1234-1260 | every install of a run keeps the starting account if and only if the credentials stored after its refresh, if it makes one, and after every renewal before a request it makes are of that account |
| `Recovery.RefreshCanSwitchAccount` | crates/core/src/auth.rs:1234-1260 | a run whose reload keeps the account and whose refresh installs another |
| `Recovery.RenewalCanSwitchAccount` | crates/core/src/auth.rs:1109-1323 | a single accepted request after which the cache holds another account: stale credentials were renewed from storage |
| `Recovery.RetryLoop` | crates/core/src/client.rs:914-958 | the loop, which asks for the credentials before every request and so renews stale ones, terminates in every environment after at most three requests, two in external mode, with the outcome and installs of the specified run |
| `Recovery.RecoveriesBounded` | crates/core/src/client.rs:914-958 | at most as many successful recoveries as the rank of the first step, never more than two |
| `Recovery.ExternalRecoversOnce` | crates/core/src/client.rs:914-958 | with externally managed tokens there is one successful recovery at most |
| `Recovery.StartExactly` | crates/core/src/auth.rs:938-960 | the first step, the expected account and the mode, by the kind of credentials cached |
| `Recovery.HasNextExactly` | crates/core/src/auth.rs:962-979 | a recovery goes on while it has a step left and ChatGPT tokens of either kind are cached; in external mode it also needs the refresher |
| `Recovery.RenewalsExactly` | crates/core/src/auth.rs:1283-1323 | credentials are renewed before a request exactly when they are stale tokens of a managed login and the endpoint answers |
| `Recovery.UnauthorizedForeverFails` | crates/core/src/client.rs:1436-1453 | a call that only meets 401 fails, whatever the recoveries did |
| `Recovery.OutcomeExactly` | crates/core/src/client.rs:1436-1453 | how a call ends, from its last request alone: the stream, another failure, a plain refusal, or the error of the recovery that failed |
| `Recovery.ApiKeyIsNotRecovered` | crates/core/src/auth.rs:962-979 | with an API key cached there is no recovery |
| `Recovery.TwoRecoveries` | crates/core/src/client.rs:914-958 | the bound of two is reached |
| `Fuzzy.FuzzyMatch` | crates/common/src/fuzzy_match.rs:13-70 | succeeds if and only if the lowered needle is a subsequence; its hits are the earliest of all embeddings; indices are strictly increasing, valid and exactly those hit; the score is their 32-bit score |
| `Fuzzy.Pick` | crates/common/src/fuzzy_match.rs:31-45 | the nested cursor loops are the greedy choice |
| `Fuzzy.GreedyIsEmbedding` | crates/common/src/fuzzy_match.rs:31-45 | the greedy choice is an embedding |
| `Fuzzy.GreedyIsEarliest` | crates/common/src/fuzzy_match.rs:31-45 | if any embedding exists the greedy choice succeeds and is no later at any position |
| `Fuzzy.DedupIncreases` | crates/common/src/fuzzy_match.rs:67-69 | removing repeats from the sorted indices keeps the same set and makes it strictly increasing |
| `Fuzzy.SortNatsSorts` | crates/common/src/fuzzy_match.rs:67 | sorting indices orders them and keeps them all |
| `Fuzzy.LoweredExactly` | crates/common/src/fuzzy_match.rs:18-25 | the lowered haystack holds the lowered form of each character in its place, under its own index |
| `Fuzzy.LoweredOneToOne` | crates/common/src/fuzzy_match.rs:18-25 | when every character lowers to one character, places and indices coincide |
| `Fuzzy.NoHits` | crates/common/src/fuzzy_match.rs:47-65 | a needle that lowers to nothing scores as a prefix match of window one |
| `Fuzzy.WindowNotNegative` | crates/common/src/fuzzy_match.rs:47-62 | the window is never negative before clamping |
| `Fuzzy.ScoreIsTrueExactly` | crates/common/src/fuzzy_match.rs:59-65 | the 32-bit score is that of the true window if and only if the window fits 32 bits |
| `Fuzzy.ScoreInNumbers` | crates/common/src/fuzzy_match.rs:59-65 | the score is the window, less a hundred when the first hit is at the start |
| `Fuzzy.BetterScores` | crates/common/src/fuzzy_match.rs:58-65 | when one match scores lower than another: a prefix match counts as a hundred smaller |
| `Fuzzy.ScoreByExample` | crates/common/src/fuzzy_match.rs:13-70 | hits and scores of two needles in one word |
| `Fuzzy.WidthByExample` | crates/common/src/fuzzy_match.rs:59-65 | where 32-bit casts turn |

## Left out

- Shell classification and heredoc extraction with tree-sitter: a foreign grammar; the model starts from the extracted patch body.
- The unified diff text of a preview: produced by a library that is not part of this model; a previewed update carries its new contents and move destination.
- Real file errors, directories and permissions: a read or a delete fails only on a missing path and a write never fails. Parent directories are not modelled.
- Path normalisation: paths are strings and `Resolve` follows `Path::join` for `/`-separated paths; two spellings of one path count as distinct.
- Error message texts: errors are datatypes that carry what the messages are built from.
- Update in place of trees: merging, overriding, stripping and pruning are modelled on values, so aliasing and the cursor of `apply_toml_override` are not captured; origins recording passes the path and the map as values.
- JSON serialisation, which breaks ties between items of one sort key, is a parameter of `Canonical`, assumed injective on well-formed values where a lemma says so.
- Integer widths: line numbers, positions, array indices and bracket depths are unbounded; only the 64-bit request counter and the 32-bit match score wrap. Positions in text count characters, not bytes.
- Fuzzy.FuzzyMatch: lowering of a character and of a string are arbitrary functions, because the Unicode tables are not part of this model; overflow checks, which stop a debug build where a release build wraps, are not modelled.
- The other schema passes: removal of fields by type from the root and from definitions, of method type definitions, and the pruning of unused TypeScript imports, which would only add easy members.
- Which arms and fields are experimental in the TypeScript filter: the predicate is arbitrary.
- Pending rollbacks and the event kinds that do not touch the turn summary.
- The order of object entries after a removal: objects keep theirs, as a `serde_json` map does by default; with its `preserve_order` feature (`crates/tui/Cargo.toml:71`) removing an entry moves the last one into its place, so the schema lemmas then hold up to that order.
- Token contents, lifetimes, hashing and the network: credentials are opaque values with an account; every reply, every read of the shared cache and whether tokens are stale is chosen by the environment.
- A client without a credential manager, which fails at its first 401, and the other loops that drive the same recovery.
- DeltaCache.WebSocketSession.Stream: how an attempt goes is a parameter, because the network decides it; every combination is allowed.
- The conversion of patches to protocol messages, channel adapters, telemetry, user interfaces and command-line parsing.
