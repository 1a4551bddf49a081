# Proofs for the messaging platform's tooling and database layer

A Dafny model of the parts of the repository that carry an algorithm or a protocol of their own, with proofs of what
those parts are for. Each module follows one source file; loops and in-place updates of the source are methods, and
each method is tied to a function whose properties are proved for all inputs. The two database protocols are state
machines over single statements, so that crashes, failed statements and interleavings are events of a run.

| file | models |
|---|---|
| `UstarArchive.dfy` | the archive writer of the security scan, and a reader for the "ustar Interchange Format" section of the `pax` utility in IEEE Std 1003.1-2017 |
| `NamedParams.dfy`, `SqlText.dfy` | the compiler from named to positional SQL parameters, and the scanners of comments and literals it shares with the SET lint |
| `NamedSections.dfy` | the splitter of multi-statement SQL files, and the guard's mirror of it |
| `Migrations.dfy`, `MigrationRuns.dfy` | discovery of migration files; the forward-only runner as a transition system with many runners, crashes at every step and a directory that changes |
| `TenantPool.dfy` | `withTenant` and `withWorker` calls interleaved over one connection pool, any statement of which may fail |
| `CommentBlanking.dfy` | the scanner that blanks comments but keeps every index |
| `SqlSetLint.dfy` | the scanner for banned `SET` statements, with its stack of open statements |
| `ModuleGraph.dfy`, `ImportGuards.dfy` | the import-graph walk, the specifier resolver, and the two guards built on them |
| `TenantMix.dfy` | the weighted round-robin allocation of instances |
| `LedgerChain.dfy` | the ledger continuity check of the restore drill |
| `Percentile.dfy` | the interpolated and the nearest-rank percentile |

`dafny verify dfyconfig.toml` checks everything.

## What the proofs say

* **Archive.** The writer's output, read by following the size fields, gives back the entries exactly when each entry's
  path, size and mode fit; no content, whether it looks like a header or like zero blocks, changes that.
* **Parameters.** A text is a list of comments, literals, placeholders and other characters, and only the placeholders are
  compiled. The compiled text with its bound array means what the named text means with its named values, exactly
  when the source has no positional placeholder of its own outside comments and literals. Putting the names back
  restores the source byte for byte under a like condition. The heart of both is that the rewrite moves no token boundary.
* **Migrations.** Whatever runners do, versions in the log strictly increase and each row has its effect: the statements of
  one file write into a transaction of their own, which COMMIT publishes and everything else drops. On a directory that
  stays as it is, every successful run leaves the whole directory in the log, in version order. Once an applied file was
  changed, no run on that directory succeeds or commits. The checksums in the log are those of the SQL that was run exactly
  when each file was read alike both times.
* **Pool.** Idle connections carry no transaction and no setting, no connection has two holders, every callback query
  finds its own id. What a finished call throws and leaves behind is a function of the events of the run alone.
* **Comment blanking, SET lint, import guards.** Each loop equals a declarative definition: roles of characters, the last
  statement keyword of a parenthesis group, existence of an import path. Both scanners find exactly the parts a text is
  printed from, and the verdict on a SET is told from those parts.

## Where code and documentation part

The model follows the code.

* `scripts/check-sql-lint.ts:14` and `:47` accept `SET LOCAL`. The pattern at line 131 lets `\s+` give back one character, so
  `SET` and `LOCAL` with two or more white-space characters between them is scanned as a plain `SET`, and reported unless
  the statement open there is exempt (`SqlSetLint.SetLocalVerdict`, and two texts in `SqlSetLint.SetLocalTwice`).
* `scripts/guards/security-scan-tar.ts:102-109` says that no path is cut silently. Of a path of 101 characters that starts
  with `/`, that slash is the leftmost place to split, and comes back in neither field (`UstarArchive.SlashLost`); a
  character above 255 or a NUL does not survive. Beyond paths, a size or mode with too many octal digits loses its last
  digits (`UstarArchive.HeaderFaithful`).
* `scripts/guards/scheduler-named-queries-lib.ts:45-51` calls itself an exact mirror of the loader. The loader keeps the last
  section with a label, the mirror finds the first (`NamedSections.MirrorAgreesExactly`, `DuplicateLabelsDiffer`).
* `db/src/tenant-db.ts:44` commits on success. A callback that catches the error of a failed query and returns gets a normal
  return and no writes, since COMMIT ends an aborted transaction without an error (`TenantPool.SwallowedFailure`, and a run
  from an empty pool in `TenantPool.SwallowedWitness`).
* `db/src/migrate.ts:174-175` reads a file once for its checksum and once for its text. A change in between records a
  checksum of bytes that were not run (`MigrationRuns.ChecksumsTrueExactly`, and a run from the start in
  `MigrationRuns.FalseChecksum`).

## Model

| member | source | states |
|---|---|---|
| UstarArchive.SplitUstarPath | scripts/guards/security-scan-tar.ts:35-55 | fails exactly for a path over 100 characters without a '/' whose two sides fit, and otherwise picks the longest possible name |
| UstarArchive.WriteOctalField | scripts/guards/security-scan-tar.ts:57-63 | the field's bytes and no others become the padded, cut and NUL-terminated digits |
| UstarArchive.WriteStringField | scripts/guards/security-scan-tar.ts:65-67 | as many characters as fit are written as bytes; every other byte stays |
| UstarArchive.PadOctalReadBack | scripts/guards/security-scan-tar.ts:57-63 | a number field always reads as a number, and as the one written exactly when its digits fit |
| UstarArchive.CutDigitsAreSmaller | scripts/guards/security-scan-tar.ts:60-61 | digits cut off at the end leave a smaller number |
| UstarArchive.ReadStringField | scripts/guards/security-scan-tar.ts:65-67 | a string that fits reads back exactly when every character is a non-NUL byte |
| UstarArchive.FillFields | scripts/guards/security-scan-tar.ts:71-81 | every byte of the header before the checksum is taken |
| UstarArchive.BuildHeader | scripts/guards/security-scan-tar.ts:69-94 | the buffer holds the header whose checksum was summed while its own field was spaces |
| UstarArchive.ChecksumAccepted | scripts/guards/security-scan-tar.ts:83-91 | for every header the stored checksum is the one a reader computes |
| UstarArchive.PathReadBack | scripts/guards/security-scan-tar.ts:35-55 | prefix and name join to the path again, exactly for representable paths that do not lose a leading slash |
| UstarArchive.HeaderFaithful | scripts/guards/security-scan-tar.ts:69-94 | a header reads back as path, size and mode exactly when all three fit |
| UstarArchive.SlashLost | scripts/guards/security-scan-tar.ts:42-49 | behind a leading slash any 100 bytes are written and read back without it, so such a path is never faithful |
| UstarArchive.PadToBlock | scripts/guards/security-scan-tar.ts:96-100 | the content followed by the fewest zeros that complete a block |
| UstarArchive.BuildTarArchive | scripts/guards/security-scan-tar.ts:110-121 | header and padded content of each entry and two zero blocks, or the first path that does not split |
| UstarArchive.ToPosixReplaces | scripts/guards/security-scan-tar.ts:113 | splitting at the separator and joining with '/' replaces each separator and nothing else |
| UstarArchive.ArchiveSucceeds | scripts/guards/security-scan-tar.ts:112-117 | an archive is written exactly when every path can be split; otherwise the error names the first that cannot |
| UstarArchive.ArchiveLength | scripts/guards/security-scan-tar.ts:96-121 | an archive has exactly two blocks, one for each entry and as many as its content begins |
| UstarArchive.ReadOneEntry | scripts/guards/security-scan-tar.ts:112-118 | in front of anything, a written entry is read as itself and reading goes on behind it, exactly when it is faithful |
| UstarArchive.ArchiveRoundTrip | scripts/guards/security-scan-tar.ts:110-121 | reading gives back each entry's own path with '/' for the separator, its bytes, and its mode or 0o644, if and only if every path character is a non-NUL byte, no path is a slash before 100 characters, no content reaches 8 GiB and no mode eight octal digits |
| UstarArchive.PathsKept | scripts/guards/security-scan-tar.ts:113 | where the separator is '/', faithful entries come back under the very paths given |
| UstarArchive.ArchiveInjective | scripts/guards/security-scan-tar.ts:110-121 | faithful entry lists with one archive agree in paths, contents and modes, but for '/' and the separator, and for no mode and the default one |
| SqlText.Unclosed | db/src/queries.ts:63 | a string literal is matched exactly when a closing quote follows somewhere |
| SqlText.StringLenOf | db/src/queries.ts:63 | a text with its quotes doubled is scanned up to its closing quote, whatever it says, unless a quote that can be closed follows |
| SqlText.StringLenIs | db/src/queries.ts:63 | and every scanned literal is such a text |
| SqlText.BlockLenIs | db/src/queries.ts:63 | a block comment ends at its first close, and without one there is none |
| NamedParams.MaskToken | db/src/queries.ts:65-67 | token by token, masking blanks the spans and keeps the rest |
| NamedParams.NextPlaceholder | db/src/queries.ts:90-99 | a match in the masked text is the first placeholder of the source, at the same place |
| NamedParams.ConvertNamedParams | db/src/queries.ts:81-104 | the loop returns the rewritten token sequence and the collected names |
| NamedParams.ScanPrinted | db/src/queries.ts:63-67 | in a text made of line and block comments, literals, placeholders and other characters each comment and literal is one opaque token, whatever it contains, and each $name one placeholder |
| NamedParams.PartsOf | db/src/queries.ts:63-69 | every text is made of such parts |
| NamedParams.CompilesParts | db/src/queries.ts:69-104 | the names are those of the placeholder parts, never one from a comment or literal, by first use; in the text only these parts change, to the position of their name |
| NamedParams.Retokenise | db/src/queries.ts:69-104 | the compiled text splits into exactly the rewritten tokens: no comment, literal or number boundary moves |
| NamedParams.RewrittenClosers | db/src/queries.ts:63-104 | compiling neither adds nor removes a quote or a comment close |
| NamedParams.ParamNamesExact | db/src/queries.ts:69-104 | no name twice, exactly the names used outside comments and literals, in order of first use |
| NamedParams.PositionsUsed | db/src/queries.ts:90-99 | every position up to the number of names occurs in the compiled text |
| NamedParams.BindQueryParams | db/src/queries.ts:112-124 | the values in the order of the names, or the first name the parameter object does not answer to |
| NamedParams.MeaningPreserved | db/src/queries.ts:81-124 | compiled text and bound array mean the same statement as the named text, exactly when the source has no unmasked positional placeholder |
| NamedParams.CompilerUndone | db/src/queries.ts:81-104 | putting names back restores the source exactly when it has no unmasked positional placeholder within the range of positions |
| NamedSections.CollectMarkers | db/src/queries.ts:146-154 | the loop finds the markers in file order |
| NamedSections.MarkersOrdered | db/src/queries.ts:136-154 | markers lie behind each other and within the text |
| NamedSections.MarkerMeaning | db/src/queries.ts:136 | a marker is found exactly where a line starts with '-- name: ', a label of letters, digits, '_' and '-', and white space to a line end, and is as long as that allows |
| NamedSections.SplitNamedSections | db/src/queries.ts:145-163 | each label is bound to the body of its last section |
| NamedSections.TrimMeaning | db/src/queries.ts:160 | a body loses the white space at both its ends and nothing else |
| NamedSections.StoredIsLast | db/src/queries.ts:156-161 | storing sections one by one keeps the last body of each label |
| NamedSections.ResolveNamedSectionText | scripts/guards/scheduler-named-queries-lib.ts:62-83 | the body of the first section with the label, if there is one |
| NamedSections.MirrorAgreesExactly | scripts/guards/scheduler-named-queries-lib.ts:45-83 | for every name, present or not, mirror and loader agree exactly when its first and last section, if any, have the same body |
| NamedSections.MirrorAgrees | scripts/guards/scheduler-named-queries-lib.ts:45-83 | with distinct labels both agree on every label, present or absent |
| NamedSections.DuplicateLabelsDiffer | scripts/guards/scheduler-named-queries-lib.ts:76-81 | a file with one label twice, for which mirror and loader return different bodies |
| NamedSections.SplitPrinted | db/src/queries.ts:138-163 | splitting undoes printing, label for label, behind any header without a marker line |
| NamedSections.NoMarkerWithin | db/src/queries.ts:136 | text without a marker of its own has none inside a file either |
| Migrations.DiscoverMigrationFiles | db/src/migrate.ts:72-107 | the files of a listing by version, or the first bad name or duplicate version |
| Migrations.NameReadBack | db/src/migrate.ts:63 | the file name built from a version below 10000 and a slug parses back to both |
| Migrations.NameIsExact | db/src/migrate.ts:63-89 | every name that parses is the name built from its version and slug |
| Migrations.DiscoverMeaning | db/src/migrate.ts:72-107 | discovery succeeds exactly when all names parse and versions differ, and then lists every migration once, by version |
| Migrations.DiscoverErrors | db/src/migrate.ts:77-96 | the error names the first file of the listing that is no migration, or the version it shares with one before it |
| Migrations.DiscoverIgnoresOrder | db/src/migrate.ts:106 | the result does not depend on the order of the listing |
| MigrationRuns.StepKeepsInv | db/src/migrate.ts:114-202 | every step of every runner, crashes and directory changes included, keeps the invariant |
| MigrationRuns.ReachableInv | db/src/migrate.ts:114-202 | in every reachable state versions increase in commit order, effects match rows, and open transactions hold what their statements wrote |
| MigrationRuns.ApplySession | db/src/migrate.ts:177-190 | the statements of one file leave the database as it is up to COMMIT, which publishes the row together with the effect; every failure drops both |
| MigrationRuns.OnlyTheLockHolderCommits | db/src/migrate.ts:122-193 | a step that changes the log is by the lock holder and adds one row, above all others, with its effect |
| MigrationRuns.CommitKeeps | db/src/migrate.ts:173-193 | a commit goes on top of the log and leaves the plan in step with it |
| MigrationRuns.DownwardClosed | db/src/migrate.ts:160-193 | while a run applies, no listed file below the newest row is missing from the log |
| MigrationRuns.FailedChecksCommitNothing | db/src/migrate.ts:141-169 | a run that fails a name, checksum or order check has committed no row |
| MigrationRuns.CheckRowMeaning | db/src/migrate.ts:141-158 | the check of a row passes exactly when a listed file of its version is readable and has the bytes of its checksum; otherwise the run leaves with the matching error |
| MigrationRuns.CheckOrderMeaning | db/src/migrate.ts:160-169 | the order check passes exactly when no file without a row is below a row; then all files without one are planned, otherwise the first of them is named |
| MigrationRuns.SuccessMeansUnchanged | db/src/migrate.ts:141-158 | a run that succeeds, or applies, on a directory unchanged since it began has every row of the log matched by a file with the recorded bytes |
| MigrationRuns.ChangedFileRefused | db/src/migrate.ts:143-157 | once an applied file was changed, is unreadable or gone, no new run on that directory succeeds or commits anything |
| MigrationRuns.FinishCounts | db/src/migrate.ts:160-195 | applied plus skipped is the number of files |
| MigrationRuns.PendingMeaning | db/src/migrate.ts:160-161 | pending are exactly the files without a row, still by version |
| MigrationRuns.Confluence | db/src/migrate.ts:114-202 | on a fixed directory, after any crashed and interleaved runs, a success leaves exactly every file in the log, once, in order, with its bytes |
| MigrationRuns.RerunAppliesNothing | db/src/migrate.ts:134-195 | after a success a later successful run applies nothing and skips every file |
| MigrationRuns.SomeRunSucceeds | db/src/migrate.ts:114-202 | after any runs from the start on a readable directory that stays as it is, a new run can succeed once the lock is free |
| MigrationRuns.ChecksumsTrueExactly | db/src/migrate.ts:173-183 | after every run the checksums in the log are those of the SQL that was run if and only if each committed file was read alike both times |
| MigrationRuns.ReachableReadings | db/src/migrate.ts:109-112 | each row's checksum comes from the first reading of its file, each effect from the second |
| MigrationRuns.RowsMatchEffects | db/src/migrate.ts:173-183 | so every checksum is true as long as changes of the directory leave alone the files that are between their two readings |
| MigrationRuns.ChangeBetweenReads | db/src/migrate.ts:174-175 | from any reached state between the two readings, other bytes under the file's name can end in a false checksum |
| MigrationRuns.FalseChecksum | db/src/migrate.ts:174-175 | on every readable directory with a file, some run from the start ends in a false checksum |
| TenantPool.StepKeepsInv | db/src/tenant-db.ts:86-167 | every event of every call keeps the invariant |
| TenantPool.ReachableInv | db/src/tenant-db.ts:86-167 | the invariant holds after every run |
| TenantPool.PoolIsolation | db/src/tenant-db.ts:86-167 | idle connections are clean and unheld, held ones have one holder, each callback runs with its own id set and no other, and each of its queries found just that |
| TenantPool.FinishedCall | db/src/tenant-db.ts:82-131 | told from the events alone: a call throws exactly the first error of its events and returns if there is none, and what it wrote persists unless its transaction was spoiled |
| TenantPool.PersistsExactlyOnReturn | db/src/tenant-db.ts:100-121 | writes persist exactly on a normal return if and only if no query failure that ends the transaction was swallowed and no COMMIT reply was lost |
| TenantPool.ReleasedUnlessRollbackFailed | db/src/tenant-db.ts:88-130 | a released connection goes back to the pool exactly when no ROLLBACK of the call failed |
| TenantPool.StepsOffered | db/src/tenant-db.ts:86-131 | a call that holds a connection can take exactly the steps of its place in the program: every statement can fail, a callback can always return or throw |
| TenantPool.UuidMeaning | db/src/tenant-db.ts:34 | the ids let through are five groups of 8, 4, 4, 4 and 12 hexadecimal digits |
| TenantPool.SwallowedFailure | db/src/tenant-db.ts:104-106 | a callback that swallows a failed query returns normally, and its writes persist exactly when the failure left the transaction alone |
| TenantPool.SwallowedWitness | db/src/tenant-db.ts:86-131 | for every tenant and write, a run from an empty pool that returns normally without the write |
| TenantPool.DishonestBeginLeaks | db/src/tenant-db.ts:100-131 | a BEGIN that takes effect but reports an error sends an open transaction back to the pool |
| CommentBlanking.StripComments | scripts/guards/tenant-scope-spans.ts:33-89 | the scanner blanks exactly the characters whose role is a comment's, newlines excepted |
| CommentBlanking.CopyLiteral | scripts/guards/tenant-scope-spans.ts:43-59 | the inner loop copies a literal up to its unescaped closing quote |
| CommentBlanking.BlankBlock | scripts/guards/tenant-scope-spans.ts:71-83 | the inner loop blanks a block comment up to its close or the end |
| CommentBlanking.BlankPrinted | scripts/guards/tenant-scope-spans.ts:33-89 | of a text made of code, literals in the three quotes with any escapes, and line and block comments, exactly the comments become blanks |
| CommentBlanking.OutputRoles | scripts/guards/tenant-scope-spans.ts:33-89 | in the output every literal character keeps its role and every comment character is plain code |
| CommentBlanking.Idempotent | scripts/check-shutdown-purity.ts:55-107 | the output has no comment, and blanking it again changes nothing |
| CommentBlanking.NoOpenerLeft | scripts/guards/tenant-scope-spans.ts:30-31 | a comment opener left in the output stands inside a literal |
| CommentBlanking.LinesKept | scripts/guards/tenant-scope-spans.ts:10-13 | line numbers of the output are line numbers of the input |
| SqlSetLint.FindSetViolations | scripts/check-sql-lint.ts:152-201 | the scanner with its stack returns exactly the positions of the SETs banned by the stackless definition |
| SqlSetLint.LexPrinted | scripts/check-sql-lint.ts:130-134 | wherever a list of keywords, words, comments, literals, dollar bodies, parentheses and SETs stands, each spelled as it may be, the scan finds exactly their tokens and goes on behind them |
| SqlSetLint.PrintedTokens | scripts/check-sql-lint.ts:130-134 | so scanning a whole text of such parts gives their tokens |
| SqlSetLint.AttributeMeans | scripts/check-sql-lint.ts:134-139 | a column attribute follows exactly for NOT NULL, DEFAULT, DATA TYPE or STATISTICS, in any case and with any white space |
| SqlSetLint.StackStep | scripts/check-sql-lint.ts:154-183 | at every depth the stack holds the statement open there, token after token |
| SqlSetLint.BannedMeaning | scripts/check-sql-lint.ts:65-106 | a SET is flagged exactly when no column attribute follows and the last statement keyword of its own group since the last ';' is not UPDATE, CREATE of a routine or ALTER TABLE |
| SqlSetLint.SettingVerdict | scripts/check-sql-lint.ts:152-193 | in a text of such parts a SET is reported where it stands exactly when the tokens in front of it say so |
| SqlSetLint.SetInStatement | scripts/check-sql-lint.ts:56-106 | behind a statement keyword a SET is reported unless the keyword is UPDATE, CREATE with a routine or ALTER with a table behind it, or a column attribute follows |
| SqlSetLint.SetBehindRoutine | scripts/check-sql-lint.ts:79-88 | behind CREATE FUNCTION or PROCEDURE a SET is accepted, behind ALTER FUNCTION and with any other such verb it is reported |
| SqlSetLint.SetAlone | scripts/check-sql-lint.ts:103-104 | a SET at the start or behind a semicolon is reported |
| SqlSetLint.ErasureKeepsVerdicts | scripts/check-sql-lint.ts:77-128 | a closed group, an opaque token or a FOR UPDATE changes no verdict behind it |
| SqlSetLint.InsideKeepsVerdicts | scripts/check-sql-lint.ts:70-75 | verdicts inside a group do not depend on what stands outside it |
| SqlSetLint.SetLocal | scripts/check-sql-lint.ts:130-131 | SET LOCAL with one white-space character is no token, with more it is a plain SET |
| SqlSetLint.SetLocalVerdict | scripts/check-sql-lint.ts:130-193 | SET, white space and LOCAL, where the scan gets to it, is reported exactly when the white space has more than one character and the open statement is not exempt |
| SqlSetLint.SetLocalTwice | scripts/check-sql-lint.ts:130-193 | two texts that differ in one blank, of which one is reported at its start and the other is not |
| ModuleGraph.ResolveRelativeSpecifier | scripts/guards/module-graph.ts:61-99 | the stack walk and the candidate search compute the resolution function |
| ModuleGraph.ResolveUndoesRelative | scripts/guards/module-graph.ts:52-99 | the relative specifier of any graph file, from any file, resolves to exactly that file |
| ModuleGraph.ResolveJsToTs | scripts/guards/module-graph.ts:83-98 | a .js specifier finds the file itself, then .ts and .tsx in its place, then added extensions and index files, in that order, and nothing else |
| ModuleGraph.ResolveBare | scripts/guards/module-graph.ts:83-98 | a specifier without .js finds the path itself, then .ts, .tsx and the index files, in that order, and nothing else |
| ModuleGraph.ImportsMeaning | scripts/guards/module-graph.ts:101-107 | the edges of a file are its specifiers in order, each with what it resolves to from there; a file imports another exactly when one of them resolves to it |
| ModuleGraph.TraverseModuleGraph | scripts/guards/module-graph.ts:122-149 | visits exactly the nodes an import path reaches, each once, and reports the edges of each visited file once |
| ModuleGraph.Visit | scripts/guards/module-graph.ts:130-146 | one visit keeps that everything seen is reachable and nothing reachable is lost |
| ModuleGraph.EndWalk | scripts/guards/module-graph.ts:130-148 | when the queue is empty, visited is exactly the reachable set |
| ImportGuards.BuildGraph | scripts/guards/module-graph.ts:151-154 | each listed path is in the graph with the content of its last file, and no other path is |
| ImportGuards.MisplacedMeaning | scripts/check-placement-neutrality.ts:51-59 | the banned prefixes are those of the seven modules that know single instances |
| ImportGuards.ScanPlacementNeutrality | scripts/check-placement-neutrality.ts:69-92 | a file is reported, once, exactly when a path from a present root reaches it, its prefix is banned and it is no root |
| ImportGuards.AddingImportsKeepsViolations | scripts/check-placement-neutrality.ts:69-92 | more imports never remove a placement violation |
| ImportGuards.ScanShutdownPurity | scripts/check-shutdown-purity.ts:117-157 | reports exactly the reachable provider files, the reachable forbidden calls and the reached package imports, one report for each such import, in the order of the walk |
| ImportGuards.ReportedExactly | scripts/check-shutdown-purity.ts:128-154 | the two loops over edges and nodes report exactly what reachability says |
| ImportGuards.ForbiddenCallMeaning | scripts/check-shutdown-purity.ts:46 | a forbidden call is the word logout or unlink on its own, white space and an opening parenthesis |
| ImportGuards.CallOutsideComments | scripts/check-shutdown-purity.ts:145-147 | the word of a reported call stands in the file itself, outside its comments |
| TenantMix.StepOf | scripts/loadtest/tenant-mix.ts:221 | the step of a class is its weight rounded to the nearest integer, halves up, and at least 1 |
| TenantMix.ExpandTenantMix | scripts/loadtest/tenant-mix.ts:204-239 | growing by whole steps hands out the same instances as the cyclic sequence taken one by one |
| TenantMix.GrowRound | scripts/loadtest/tenant-mix.ts:219-227 | one walk over the classes makes progress and stays on the sequence |
| TenantMix.CountsAddUp | scripts/loadtest/tenant-mix.ts:193-239 | counts sum to the reported total, which is the target exactly when the base does not exceed it |
| TenantMix.OneMoreInstance | scripts/loadtest/tenant-mix.ts:218-228 | one more in the target is one more instance of exactly one class |
| TenantMix.ExtraInRounds | scripts/loadtest/tenant-mix.ts:218-228 | after whole rounds and a part, each class has its step per round and its share of the part |
| TenantMix.RoundsAreFair | scripts/loadtest/tenant-mix.ts:194-197 | any two classes are within the same completed round of each other |
| TenantMix.TruncatedMeaning | scripts/loadtest/tenant-mix.ts:198-224 | with a base within the target, truncated is set exactly when some class stands inside one of its steps |
| LedgerChain.GroupRows | scripts/ops/restore-drill-metrics.ts:45-53 | groups rows by client, clients in order of first appearance |
| LedgerChain.CheckChain | scripts/ops/restore-drill-metrics.ts:66-82 | the loop over one sorted group finds its breaks |
| LedgerChain.EvaluateLedgerChain | scripts/ops/restore-drill-metrics.ts:44-85 | clients, rows and breaks of the whole ledger |
| LedgerChain.ChainMeaning | scripts/ops/restore-drill-metrics.ts:58-64 | a chain has the rows of its client by ascending sequence number, rows that share one in the order given |
| LedgerChain.EveryRowChecked | scripts/ops/restore-drill-metrics.ts:58-68 | every row is checked exactly once |
| LedgerChain.OrderIndependent | scripts/ops/restore-drill-metrics.ts:40-42 | with distinct sequence numbers per client, the same rows in any order give each client the same chain and breaks |
| LedgerChain.ResultIgnoresOrder | scripts/ops/restore-drill-metrics.ts:40-85 | in any row order the number of rows and clients and the breaks, counted with their number, are the same |
| LedgerChain.BalanceConserved | scripts/ops/restore-drill-metrics.ts:66-82 | the last balance is the sum of amounts and of the gap of each break |
| LedgerChain.UnbrokenIsPrefixSums | scripts/ops/restore-drill-metrics.ts:66-82 | no break exactly when every balance is the sum of the amounts so far |
| LedgerChain.LedgerPasses | scripts/ops/restore-drill-metrics.ts:44-85 | a ledger has no break exactly when that holds for every client |
| LedgerChain.WrongBalance | scripts/ops/restore-drill-metrics.ts:66-82 | one wrong balance breaks at its row and its successor, nowhere else |
| LedgerChain.WrongAmount | scripts/ops/restore-drill-metrics.ts:66-82 | one wrong amount breaks at its row alone |
| Percentile.InterpolatedPercentile | scripts/measure/pacing-run.ts:138-153 | fails exactly for no samples or a p outside 0 to 100 |
| Percentile.InterpolatedMeaning | scripts/measure/pacing-run.ts:131-153 | at a fraction behind a position of the sorted samples the value is the mean of the two neighbours, weighted by that fraction |
| Percentile.InterpolatedRange | scripts/measure/pacing-run.ts:131-153 | lies between least and greatest sample, which are the percentiles for 0 and 100 |
| Percentile.InterpolatedMonotone | scripts/measure/pacing-run.ts:131-153 | a higher p never gives a lower value |
| Percentile.PercentileOfOneTo | scripts/measure/pacing-run.ts:131-153 | samples 1 to n in any order have percentile 1 plus p percent of n - 1 |
| Percentile.OrderIndependent | scripts/measure/pacing-run.ts:145 | neither percentile depends on the order of the samples |
| Percentile.NearestRankMeaning | scripts/measure/ramp-sessions.ts:79-84 | the least sample with at least p percent of all samples at or below it |
| Percentile.NearestRankClamped | scripts/measure/ramp-sessions.ts:79-84 | zero for no samples, the least sample for p up to 0, the greatest from 100 on |
| Percentile.SameBracket | scripts/measure/ramp-sessions.ts:79-84 | both percentiles lie between the same two neighbouring samples |

## Left out

- UstarArchive.BuildTarArchive: sizes and modes are unbounded naturals; a negative or fractional mode, which the type of the source allows, is not modelled.
- NamedParams.MeaningPreserved: a statement is a sequence of characters and values; what PostgreSQL makes of it is not modelled.
- Migrations.DiscoverMigrationFiles: errors carry the file name or version, not the message text.
- MigrationRuns.Confluence: the SQL of a file is opaque text that writes one effect into the transaction open around it; SQL that ends that transaction itself is not modelled. SHA-256 is an injective function of the content.
- MigrationRuns.SomeRunSucceeds: says that a continuation exists; fairness of the advisory lock is not modelled.
- TenantPool.PoolIsolation: callbacks issue no transaction control and no session-level settings, as `TenantQueryable` intends, and a BEGIN reported as failed opened nothing; DishonestBeginLeaks shows that this is needed. That the pool itself drops a broken idle connection is not modelled.
- TenantPool.PersistsExactlyOnReturn: a query either writes one item or fails; rows read by a query are not modelled.
- ModuleGraph.TraverseModuleGraph: the extraction of specifiers by a regular expression (scripts/guards/module-graph.ts:22-50) is a parameter, so the results hold for every extraction.
- ImportGuards.ScanShutdownPurity: message texts and the joined list of roots in a package-import report are not modelled.
- TenantMix.ExpandTenantMix: a target that is no integer is outside the type; weights and rates are reals. The parsing of a mix and the send-rate sums are one-branch claims.
- LedgerChain.EvaluateLedgerChain: figures are integers already; parsing them from text is not modelled. The sort is the library's, stated as a stable sort by sequence number.
- Percentile.SameBracket: exact reals; floating-point rounding, NaN and infinities are not modelled.
- Characters are single code points; UTF-16 surrogates and the encoding of files are not modelled.
- File reading, globbing, process spawning, database and Redis clients, clocks and report formatting.
- The other guards (copy, send origin, bulk lookup and the like) match text by heuristics without an exact specification.
- `db/schema` declares tables; the claim, reserve and debit SQL is not part of this model.
- Frontend, website and build configuration.
