# Skeema: proofs about diffs, SQL files and their execution

Skeema compares two versions of a schema and generates the DDL that turns one into the other.
This project models the parts of it that claim to produce an artifact with exactly the intended
effect, and proves those claims:

- **The diff engine** (`internal/tengo`): column drops, moves and adds; secondary indexes, checks
  and foreign keys with their "reorder only" and "cosmetic only" suppression; table attributes;
  the split into several statements; the diff of whole schemas. The effect of an ALTER TABLE clause
  is an explicit function, written from what the comments of `table.go` and `diff.go` rely on:
  DROP removes by name, MODIFY with FIRST or AFTER moves, ADD with FIRST or AFTER inserts and
  appends otherwise, ADD KEY appends, DROP KEY removes by name. The main results say that running
  the emitted clauses reaches the target, and with how few moves.
- **The lexer, the statement splitter and the SQL-file editor**: the streaming lexer refines a
  lexer of the whole input, however the input arrives; the splitter is a lossless partition with
  exact positions; any sequence of edits keeps the delimiters of a file consistent.
- **The redundant-index linter**, **the workspace executor** (a producer, a worker pool and a
  collector, as a state machine), **the SQL printer** with a client that reads its output, and
  **the planning and execution gate** for unsafe DDL.

Conventions. Strings are sequences of bytes: one `char` stands for one byte. Where Go iterates
over a map, the iteration order is a parameter, and the results hold for every order. Named
elements of a table (columns, indexes, checks, foreign keys) are lists of `Named<T>` with unique
names. What depends on the environment (answers of a server, table sizes, the size of a refill)
is a parameter or a nondeterministic choice.

Layout, bottom up: `Wrappers`, `Text`, `NamedLists`, `Modifiers` (basics);
`Subsequences`, `Columns`, `ColumnOrder`, `ColumnDiff`; `Indexes`, `ListDiff`, `IndexDiff`,
`Checks`, `ForeignKeys`, `CreateOptions`, `Attributes`; `Tables`, `TableDiff`, `UnsafeTypes`, `Alter`,
`Verifier`; `ListOps`, `Splitting`, `SplitMeaning`, `SplitSafety`; `KeyedRuns`, `SchemaDiff`,
`SchemaConvergence`, `Routines`; `Applier`, `TargetGroups`, `Printer`, `PrintedText`; `DupeIndex`; `Workspace`,
`WorkspaceSafety`; `LexSpec`, `Utf8`, `Lexer`, `Quoting`, `Positions`, `ParsedStatements`,
`ParserTokens`, `TokenGroups`, `CreateShapes`, `Parser`; `Statements`, `SqlFile`, `SqlFileEdits`,
`ParsedFiles`, `WrittenFiles`.

What the decisions of the code mean is told apart from it, without the functions that make them:
`ColumnMeaning` and `AttributeMeaning` (what equivalent columns share, what attributes end as),
`IndexMeaning` (entries and order of rows in an index), `AlterEffects` and `SafeRuns` (what a
statement destroys, and that a run without permission does not), `LexMeaning` and `WordMeaning`
(whitespace, comments, strings, words and numbers), `CreateShapes` (what the tokens of a CREATE
statement tell).

## Where the code does less than its comments or intentions say

Each of these is proved, with the exact condition under which the intended property holds.

- Without StrictForeignKeyNaming, a target foreign key can be left without any functional
  equivalent: when its only equivalent in the old version is itself redefined under its name
  (`ForeignKeys.RedefinedAndRenamedIsLost`, `ForeignKeys.CoverageIffNothingLost`).
- `ChangeCreateOptions` reaches the target's create options exactly if the options that `splitOpts`
  drops, those with no or with several '=', need not be changed. A value with a '=' in it is never
  set, and verification does not notice, because its second clause is empty as well
  (`CreateOptions.OptionsConverge`, `CreateOptions.ValueWithEqualsIsNeverSet`,
  `CreateOptions.SecondIsEmpty`).
- `NormalizeTrailer` is idempotent exactly for delimiters that do not end in a blank or consist of
  blanks only (`Statements.NormalizeIdempotentIff`). Its result need not end its line: a line end in
  front of the delimiter is mistaken for one behind it (`Statements.NormalizedEndsLineIff`).
- Columns of parsed statements are counted statement by statement. They are those in the whole text
  exactly if no rune reaches across the start of a statement in which no new line starts
  (`ParsedStatements.PositionsAreAbsoluteIff`). In a valid UTF-8 file that always holds
  (`Parser.ParseStatements`). It fails if the first byte of a rune is made the delimiter
  (`ParsedStatements.SplitRuneIsMiscounted`).
- The printer's output drives a client exactly if each statement is one on its own: if it does not start
  like a client command, and does not contain the delimiter that is printed behind it. A compound
  statement with two slashes outside quotes and comments ends there
  (`PrintedText.PrinterDrivesClient`, `PrintedText.SlashesEndEarly`).
- `matchNextSequence` compares the text of the tokens, joined by spaces. Under a delimiter with a space in
  it that text can belong to fewer tokens than there are words, and exactly then the list of tokens is
  sliced out of range, a panic (`Parser.Parser.MatchNextSequence`): for instance for
  `CREATE TABLE if not exists` under the delimiter `not exists` (`ParserTokens.JoinedDelimiterPanics`).
  Under any other delimiter the comparison is one of tokens (`ParserTokens.JoinsIsMatches`).
- The DELIMITER commands that `AddStatement` and `EditStatementText` insert need not start a line, which
  a client other than Skeema's own parser may ask for: not if the statement in front of them has its
  delimiter on a line of its own and no line end behind it
  (`SqlFileEdits.AddedCommandsStartLines`), and not if an edited statement did not start a line itself
  (`SqlFileEdits.EditedCommandsStartLines`).
- `isSpace` claims to treat a lone byte 0x85 or 0xA0 as whitespace; where a token starts, such a byte
  is a word (`LexSpec.LoneSpaceIsAWord`).
- Two no-op statements can follow each other not only behind a byte-order mark, but exactly where one of
  them is a delimiter of its own (`TokenGroups.NoopsMeetAtDelimiters`, `TokenGroups.TwoNoops`).

## Model

| member | source | states |
|---|---|---|
| Subsequences.LongestIncreasingSubsequence | internal/tengo/util.go:223-249 | the result is a strictly increasing subsequence of the input, and no strictly increasing subsequence is longer |
| ColumnDiff.CompareColumnExistence | internal/tengo/table.go:465-493 | the common columns in the order of either side, the columns only the old or only the new version has, and whether the common ones changed their relative order |
| ColumnDiff.ColumnsComparison.ColumnDrops | internal/tengo/table.go:506-518 | drops exactly the columns that the target does not have, in their order |
| ColumnDiff.ColumnsComparison.ExistingColsAfter | internal/tengo/table.go:520-552 | true exactly if some later column of the target existed before |
| ColumnDiff.ColumnsComparison.ColumnAdds | internal/tengo/table.go:520-552 | adds exactly the new columns, each with the position clause the specification asks for |
| ColumnDiff.ColumnsComparison.ColumnModifications | internal/tengo/table.go:554-608 | repositions only the columns outside a largest possible set that keeps its order, and modifies in place only what changed |
| ColumnDiff.ColumnsComparison.MovingModifications | internal/tengo/table.go:574-608 | the columns that stay are given by a longest increasing subsequence of the old positions, so the set is as large as possible |
| ColumnDiff.DiffColumns | internal/tengo/table.go:268-273 | running the emitted drops, modifications and adds in order succeeds and gives exactly the target's columns in order; and no sequence of single-column moves that reaches the target order is shorter than the repositioning clauses |
| Columns.ColumnsConverge | internal/tengo/table.go:268-273 | for any set of common columns that keeps its order, the clauses apply without error (so every AFTER names a column that is there) and end in the target's columns; under loose modifiers an untouched column may differ cosmetically |
| Columns.DropsAndModifiesApply | internal/tengo/table.go:506-608 | after drops and modifications, the columns are the common ones in the target's order |
| Columns.AddsApply | internal/tengo/table.go:520-552 | adding the new columns one by one fills exactly the gaps in the target's order |
| ColumnOrder.SubsequenceStays | internal/tengo/table.go:574-608 | an increasing subsequence of positions is a set of columns whose relative order is the same on both sides |
| ColumnOrder.StaysIsSubsequence | internal/tengo/table.go:574-608 | conversely, any set of columns that keeps its order is an increasing subsequence of the positions |
| ColumnOrder.FewestMoves | internal/tengo/util.go:223-249 | any sequence of single-column moves to the target order has at least as many moves as there are columns outside a longest increasing subsequence |
| ColumnDiff.PlanIsOptimal | internal/tengo/table.go:574-608 | the number of repositioning clauses is at most the length of any sequence of moves that reaches the target order |
| ColumnMeaning.EquivalentIff | internal/tengo/column.go:134-170 | columns are equivalent if and only if they have everything in common but the spelling of utf8 in the names of character set and collation, whether those are shown, and a display width that only one of the types shows |
| ColumnMeaning.WidthIsCosmetic | internal/tengo/util.go:173-193 | for integer types that display width is none of a boolean tinyint(1) and none to fill up with zeros, so that equivalent columns have the same values |
| Indexes.EqualsIsEquality | internal/tengo/index.go:70-86 | Equals holds of identical indexes only, EqualsIgnoringVisibility of indexes identical up to visibility |
| Indexes.RedundantTransitive | internal/tengo/index.go:120-149 | redundancy is transitive |
| Indexes.RedundantReflexive | internal/tengo/index.go:120-149 | every index but a primary key is redundant to itself |
| Indexes.RedundantAntisymmetric | internal/tengo/index.go:102-149 | indexes redundant to each other are functionally identical and equally visible |
| IndexMeaning.RedundantIffServed | internal/tengo/index.go:120-149 | an index that is no constraint is redundant to another one if and only if that is of the same kind, not hidden from it, and tells at least the same rows apart by leading parts, prefixes included, in an order that is one of the first index as well |
| IndexMeaning.RedundantIsServed | internal/tengo/index.go:120-149 | the entry of any row in a redundant index is cut from that in the other one, part by part, and rows that a unique redundant index forbids are forbidden by the other |
| IndexMeaning.UniqueIffMutual | internal/tengo/index.go:120-149 | a unique index is redundant to another one if and only if that is unique, of the same kind, not hidden from it, and each serves in the place of the other |
| DupeIndex.DupeIndexChecker | internal/linter/check_dupe_index.go:36-51 | there is one note for each flagged index and no other, in order, and it names a better index |
| DupeIndex.FlaggedIsCovered | internal/linter/check_dupe_index.go:36-51 | every flagged index is redundant to the primary key or to an index that is not flagged, so all flagged indexes can be dropped at once; what redundancy means is in `IndexMeaning` |
| DupeIndex.FlaggedIsReplaced | internal/linter/check_dupe_index.go:36-51 | for every flagged index an index that stays serves all reads in its place, and forbids the duplicates that it forbids |
| DupeIndex.ClimbToTop | internal/linter/check_dupe_index.go:36-51 | from any index a chain of redundancies leads to one that is redundant only to its equals |
| DupeIndex.FirstOfClass | internal/linter/check_dupe_index.go:42-49 | the first index of such a class of equals is never flagged |
| IndexDiff.DiffIndexes | internal/tengo/table.go:275-330 | the loops over primary key and secondary indexes emit exactly the specified clauses |
| IndexDiff.DropMissing | internal/tengo/table.go:292-301 | drops what the target does not have; the rest is the list of surviving indexes in order |
| IndexDiff.DiffPositions | internal/tengo/table.go:302-330 | with the flag for reordering raised exactly from the first position on at which the two sides differ |
| IndexDiff.IndexesConverge | internal/tengo/table.go:275-330 | the clauses apply without error and leave the target's primary key and secondary indexes: under StrictIndexOrder in the same order, otherwise the same name-to-definition map including visibility |
| IndexDiff.NeverAlteredAndDropped | internal/tengo/alterclause.go:77-143 | whatever the modifiers, a statement never alters an index that it also drops |
| ListDiff.StillInRange | internal/tengo/table.go:288-330 | if the target's first elements all existed before, that many survive, so that the list of survivors is long enough whenever a loop over indexes or checks reads it |
| Checks.DiffChecks | internal/tengo/table.go:372-407 | the loops over check constraints emit exactly the specified clauses |
| Checks.ChecksConverge | internal/tengo/table.go:372-407 | the clauses leave the target's checks, on MariaDB under StrictCheckOrder in the same order |
| ForeignKeys.EqualsIsEquality | internal/tengo/foreignkey.go:63-70 | Equals holds of identical foreign keys only |
| ForeignKeys.EquivalentIsEquivalence | internal/tengo/foreignkey.go:72-110 | functional equivalence is reflexive, symmetric and transitive |
| ForeignKeys.EquivalentIffSameConstraint | internal/tengo/foreignkey.go:72-110 | foreign keys are equivalent if and only if they have the same columns, refer to the same columns of the same table, and take the same action on update and on delete, where nothing, RESTRICT and NO ACTION are the same |
| ForeignKeys.DiffForeignKeys | internal/tengo/table.go:332-370 | for whatever iteration orders the two maps happen to have, the loops emit the specified clauses |
| ForeignKeys.ForeignKeysConverge | internal/tengo/table.go:332-370 | for every iteration order the clauses apply without error and determine what is left under each name; with StrictForeignKeyNaming that is the target |
| ForeignKeys.SurvivorsAreWanted | internal/tengo/alterclause.go:157-180 | without strict naming, every foreign key left has the same columns, the same target and the same actions as one of the described table |
| ForeignKeys.CoverageIffNothingLost | internal/tengo/table.go:332-370 | a target foreign key has an equivalent survivor if and only if no old key it relies on is redefined or dropped |
| ForeignKeys.NothingLostIfStable | internal/tengo/table.go:332-370 | it is enough that no foreign key changes functionally under its own name |
| ForeignKeys.RedefinedAndRenamedIsLost | internal/tengo/table.go:332-370 | a concrete pair of tables for which a target foreign key is lost |
| CreateOptions.SplitOptions | internal/tengo/alterclause.go:604-613 | keeps exactly the options with a single '=' |
| CreateOptions.Clause | internal/tengo/alterclause.go:586-643 | each option that differs, or is gone, is set exactly once, whatever the order of the maps |
| CreateOptions.OptionsConverge | internal/tengo/alterclause.go:586-643 | running the clause reaches the target's options if and only if the options with no or several '=' agree or are replaced by ones that can be set |
| CreateOptions.SecondIsEmpty | internal/tengo/alterclause.go:586-643 | a second clause is empty, whether or not the target was reached |
| CreateOptions.ValueWithEqualsIsNeverSet | internal/tengo/alterclause.go:604-613 | a concrete target option, as a server reports it, that the clause does not set |
| Attributes.AttrsConverge | internal/tengo/table.go:255-263 | the clauses on table attributes lead to the target's attributes, up to what the modifiers suppress |
| Attributes.AttrsSettle | internal/tengo/table.go:409-463 | after the strictest clauses were applied, a second diff of the attributes has no text |
| AttributeMeaning.AttributesEnd | internal/tengo/alterclause.go:521-540 | the clauses leave the described engine and comment; the next AUTO_INCREMENT value by mode: the old one, the larger one, the described one if the old one was above 1, or the described one; a partitioning that Keep never undoes and Remove never brings about; and the described collation unless it is the same by another name of utf8 |
| AttributeMeaning.UnsupportedIff | internal/tengo/partition.go:101-157 | a change of partitioning is unsupported if and only if the lists of partitions differ and nothing else does, for other methods than RANGE and LIST |
| Tables.PartsAreIndependent | internal/tengo/diff.go:606-670 | running a clause list is running each component's clauses on that component |
| Tables.NoneClusterable | internal/tengo/table.go:191-213 | there is no clustered secondary index exactly if no index qualifies |
| Tables.ClusteredIndexKeyIs | internal/tengo/table.go:191-213 | on InnoDB the clustered index is the primary key, without one the first unique index of which each part is a whole column that is never NULL, and none if there is no such index; on another engine there is none |
| TableDiff.DiffTables | internal/tengo/table.go:237-463 | Table.Diff emits the clauses of all components in order and reports when a difference is unsupported |
| TableDiff.DiffParts | internal/tengo/table.go:237-463 | sorted by component, a diff is the diffs of the components |
| TableDiff.TableConverges | internal/tengo/table.go:237-463 | applying the clauses of Table.Diff in order never fails and reaches the target: exactly where the modifiers are strict, up to what they suppress otherwise |
| UnsafeTypes.IntRanks | internal/tengo/alterclause.go:418-435 | the loop over the type names finds the rank of both integer types |
| UnsafeTypes.IntegerGateIsExact | internal/tengo/alterclause.go:311-330 | a change between integer types of a stored column is unsafe if and only if some old value does not fit the new type, whatever the display widths |
| Alter.AlterStatement | internal/tengo/diff.go:568-670 | a statement is blank if no clause has text, forbidden if any clause is unsafe without permission, even one without text, and consists of the clauses with text otherwise |
| Alter.EmittedSuffices | internal/tengo/diff.go:606-635 | executing the emitted text has the effect of the whole clause list |
| Alter.ClusteredKeyReached | internal/tengo/diff.go:600-604 | whatever modifiers suppress reordering, an InnoDB table ends with the clustered index key of the target |
| Alter.ForcedIff | internal/tengo/diff.go:600-604 | index order is forced if and only if the described table is an InnoDB table without a primary key and with a unique index that is never NULL |
| AlterEffects.SafeAlterKeeps | internal/tengo/diff.go:568-670 | without AllowUnsafe, an ALTER TABLE that is run leaves each column that is not virtual, the engine, and the partitions of a table whose partitioning it does not replace |
| AlterEffects.DestroyerIsRefused | internal/tengo/diff.go:606-635 | without AllowUnsafe, an ALTER TABLE with a clause that would destroy any of these is refused |
| AlterEffects.UnsafeIffDestroys | internal/tengo/alterclause.go:66-70 | among the clauses with a text, modified columns apart, those that need permission are exactly those that destroy something of some table |
| AlterEffects.DiffDescribes | internal/tengo/table.go:237-463 | a diff drops columns as the old table has them, and partitions anew only in another way |
| Verifier.SelfDiffIsEmpty | internal/applier/verifier.go:93-110 | diffing a table with itself gives no clauses |
| Verifier.VerifyTable | internal/applier/verifier.go:119-135 | passes if the second diff is blank, and reports an unsupported difference or what is left over otherwise |
| Verifier.SecondDiffHasNoText | internal/applier/verifier.go:93-110 | no clause of the second diff has any text |
| Verifier.VerificationSettles | internal/applier/verifier.go:36-110 | after the strict ALTER the second diff finds nothing to run, whatever the create options; it is unsupported only if nothing explains why the two SHOW CREATE TABLE texts differ |
| Verifier.SplitVerificationSettles | internal/applier/verifier.go:59-110 | the same after an ALTER that was split, if FULLTEXT indexes are listed last or did not have to be split |
| ListOps.DeferringPreserves | internal/tengo/diff.go:421-506 | moving additions behind everything else keeps the same elements, if nothing later mentions their names; what is moved ends up at the end |
| ListOps.KeptApplies | internal/tengo/diff.go:421-506 | leaving the moved additions out gives the same list without their elements |
| Splitting.SplitAddForeignKeys | internal/tengo/diff.go:421-456 | separates exactly the ADD FOREIGN KEY clauses, and makes no statement without clauses |
| Splitting.SplitConflicts | internal/tengo/diff.go:468-506 | the first statement keeps everything but the second and later FULLTEXT indexes, each of which gets a statement of its own |
| Splitting.PiecesPartition | internal/tengo/diff.go:421-506 | each clause ends up in exactly one piece |
| Splitting.PiecesAreLegal | internal/tengo/diff.go:421-506 | no piece adds two FULLTEXT indexes or mixes added foreign keys with anything else, and the foreign keys come last |
| Splitting.SplitIffNeeded | internal/tengo/diff.go:421-506 | an ALTER is left in one piece if and only if it builds at most one FULLTEXT index and adds either foreign keys only or none |
| SplitMeaning.SplittingPreserves | internal/tengo/diff.go:421-506 | the pieces run in order give the table that the whole ALTER gives, up to the order of foreign keys and of FULLTEXT indexes |
| SplitMeaning.IndexesMove | internal/tengo/diff.go:468-506 | moving FULLTEXT indexes to the end keeps the primary key, the set of indexes and the order of all others |
| SplitSafety.DiffIsSplitSafe | internal/tengo/table.go:275-370 | in the clauses of a diff nothing touches an index or foreign key after it was added |
| SplitSafety.SplitDiffConverges | internal/tengo/diff.go:121-134 | the split ALTERs of a diff, run one after the other, reach the target |
| SplitSafety.SplitReachesOrder | internal/tengo/diff.go:468-506 | under StrictIndexOrder the split ALTERs reach the target's exact order of indexes, if FULLTEXT indexes are listed last |
| SplitSafety.SplitClusteredKeyReached | internal/tengo/diff.go:600-604 | however the ALTER is split and whatever is suppressed, an InnoDB table ends with the clustered index key of the target |
| KeyedRuns.ObjectsAreIndependent | internal/tengo/diff.go:115-149 | if the changes of every object succeed on their own, a run of all of them in any interleaving succeeds and leaves each object as its own changes leave it |
| SchemaDiff.PreDropAlters | internal/tengo/diff.go:378-408 | one ALTER per partition but the last, for RANGE and LIST partitioning without subpartitions only |
| SchemaDiff.CompareTables | internal/tengo/diff.go:115-149 | the loops over both maps, in whatever order, emit the specified diffs, those that add foreign keys last |
| SchemaConvergence.TablesConverge | internal/tengo/diff.go:115-149 | with unsafe DDL allowed and all diffs supported, executing the emitted diffs in order succeeds and leaves exactly the target's tables, for every iteration order |
| SchemaConvergence.AltersReach | internal/tengo/diff.go:128-141 | the ALTERs of one table bring it to the target |
| SchemaConvergence.PreDropExecutes | internal/tengo/diff.go:378-408 | the ALTERs in front of a DROP TABLE never fail |
| SchemaConvergence.ForeignKeysComeLast | internal/tengo/diff.go:143-148 | once an ALTER that adds foreign keys was emitted, only such ALTERs follow |
| Routines.CompareRoutines | internal/tengo/diff.go:151-183 | for whatever iteration orders, a DROP for what is gone, a pair for what changed, a CREATE for what is new, procedures before functions |
| Routines.RoutinesConverge | internal/tengo/diff.go:151-183 | with unsafe DDL allowed the routine diffs run without error on any flavor and leave the target's routines, except that a metadata-only change is ignored unless CompareMetadata is set |
| Routines.ReplaceEqualsDropAndCreate | internal/tengo/diff.go:712-758 | on MariaDB CREATE OR REPLACE without the DROP ends in the same routines as DROP and CREATE elsewhere |
| Routines.ReplacedNeverMissing | internal/tengo/diff.go:725-747 | on MariaDB a routine that is being replaced exists after every statement |
| Routines.SkippedAsAPair | internal/tengo/diff.go:717-723 | the two diffs of a replacement are skipped together, exactly for a metadata-only change that is to be ignored |
| Applier.PlanTarget | internal/applier/applier.go:98-131 | either no diff is refused and the planned statements and counts are those of all diffs, or nothing at all is planned and every diff counts as skipped |
| Applier.ProcessSQL | internal/applier/target.go:65-81 | statements are printed and run in order up to the first failure; successes and skipped statements add up to the planned ones |
| Applier.ApplyTarget | internal/applier/applier.go:93-158 | one refused diff, a failed verification or a linter error means that nothing is printed or run; otherwise a prefix of the plan is run |
| Applier.UnsafeIsGated | internal/applier/ddlstatement.go:50-63 | an unsafe statement is planned only with AllowUnsafe or on a table smaller than safe-below-size |
| Applier.PlannedWithoutErrors | internal/applier/ddlstatement.go:44-63 | nothing is planned for a table whose size is needed and cannot be read, whose wrapper command cannot be built, or which is altered through a wrapper by a size limit that is no size |
| Applier.NothingUnsafeRuns | internal/tengo/diff.go:513-543 | without either, no statement that reaches the server drops a table, a routine or a database, or contains an unsafe clause |
| SafeRuns.RunsLoseNothing | internal/applier/applier.go:93-158 | executing any prefix of the plan without AllowUnsafe and safe-below-size leaves every table and every routine in place, and of every table each stored column, the engine and the partitions |
| SafeRuns.SchemaDiffLosesNothing | internal/tengo/diff.go:115-149 | the same for the diffs of a whole schema, whatever the iteration orders |
| Applier.IntegerChangesKeepValues | internal/tengo/alterclause.go:311-330 | any change between integer types that reaches the server keeps every old value of a stored column |
| Applier.NeverDropsDatabase | internal/tengo/diff.go:285-303 | DROP DATABASE is never planned, whatever the options |
| TargetGroups.GroupByInstance | internal/applier/target.go:274-286 | one group per instance with its targets in order, the groups in any order |
| TargetGroups.GroupsPartition | internal/applier/target.go:274-286 | every target is in exactly one group, and targets share a group exactly if they share the instance |
| TargetGroups.Result.Merge | internal/applier/applier.go:41-45 | adds the counts and combines the flag |
| TargetGroups.MergeAll | cmd_push.go:107-124 | merging the results of all targets gives their sum, and the targets skipped at the start |
| TargetGroups.SumIsOrderFree | internal/applier/applier.go:39-45 | the combined result does not depend on the order in which targets finish |
| Printer.StandardPrinter.Print | internal/applier/printer.go:49-75 | what is written and the new state, as functions of the state before |
| Printer.PrintKeepsStep | internal/applier/printer.go:49-75 | after each call a client that obeyed the lines has the same instance, schema and delimiter as the printer, and ran just that statement |
| Printer.LinesDriveClient | internal/applier/printer.go:49-75 | over any sequence of calls, a client that obeys the lines runs each statement exactly once, in order, under its own delimiter, on its instance and under its schema, and sees USE only while the delimiter is ";" |
| Printer.NoRepeatedUse | internal/applier/printer.go:57-68 | between two statements for the same schema no USE is printed |
| Printer.InstancePrinter.PrintAll | internal/applier/printer.go:78-86 | prints the instances in the order of their first statement |
| Printer.EachInstanceOnce | internal/applier/printer.go:78-86 | each instance with a statement exactly once |
| PrintedText.EndHere | internal/tengo/lexer.go:104-263 | whether the lexer finds the printed delimiter where it was printed does not depend on what is printed behind it |
| PrintedText.UseReads | internal/applier/printer.go:66-69 | USE with an escaped schema name is read back as that schema, whatever the name contains |
| PrintedText.TextReadsBack | internal/applier/printer.go:49-75 | a client that lexes the printed bytes as one text reads exactly the printed lines, if and only if each of them can be read on its own |
| PrintedText.PrinterDrivesClient | internal/applier/printer.go:49-75 | reading the bytes of any sequence of calls, a client finds exactly what was printed, and so runs each statement once and as intended, if and only if every statement is one statement, or one line of shell, on its own |
| PrintedText.SlashesEndEarly | internal/applier/printer.go:74-75 | a concrete compound statement that ends early for the client |
| WorkspaceSafety.StartInv | internal/workspace/workspace.go:326-343 | the invariant holds before anything was sent |
| WorkspaceSafety.StepInv | internal/workspace/workspace.go:326-373 | every action of the producer, a worker or the collector preserves the invariant: each statement is in exactly one place and is accounted for once |
| WorkspaceSafety.NoSendAfterClose | internal/workspace/workspace.go:345-362 | once the collector has closed its channel, no worker holds a statement or can send |
| WorkspaceSafety.NoDeadlock | internal/workspace/workspace.go:326-373 | with a worker, or without CREATEs, some goroutine can move until all have ended |
| WorkspaceSafety.MeasureDecreases | internal/workspace/workspace.go:326-373 | a measure decreases with every action, so every interleaving ends |
| WorkspaceSafety.EveryRunCompletes | internal/workspace/workspace.go:326-373 | every interleaving that cannot go on has run each CREATE exactly once in parallel, and each statement finally succeeded exactly once or is exactly once among the failures |
| WorkspaceSafety.RetriedIffRetryable | internal/workspace/workspace.go:350-361 | a statement is retried exactly if its parallel run had a retryable error |
| WorkspaceSafety.StartsIffStaffed | internal/workspace/workspace.go:326-343 | a first step exists if and only if there is a worker or nothing for it to do; workspace.go:152-158 refuses less than one thread |
| LexSpec.TokensAdvance | internal/tengo/lexer.go:104-263 | unless the delimiter is empty, every token has at least one byte |
| LexSpec.FillerStartLocal | internal/tengo/lexer.go:312-334 | six bytes decide whether whitespace or a comment starts |
| LexSpec.WordStepLocal | internal/tengo/lexer.go:212-258 | as many bytes as a rune or the delimiter has decide whether a word or number goes on |
| LexSpec.LoneSpaceIsAWord | internal/tengo/lexer.go:312-318 | a lone byte 0x85 or 0xA0 at the start of a token is no filler but a word |
| LexMeaning.RuneIs | internal/tengo/lexer.go:312-318 | a text that begins with the UTF-8 encoding of a code point has that as its first rune, which is whitespace if and only if the code point has the property White_Space |
| LexMeaning.NextIsFillerIff | internal/tengo/lexer.go:312-334 | not behind filler, a token is filler if and only if whitespace, a hash, two dashes in front of whitespace or the end, or a slash and an asterisk start there |
| LexMeaning.FillerTokenIs | internal/tengo/lexer.go:338-380 | a filler token consists of all the whitespace, line comments up to their line end and block comments up to their first closer, until something else starts, or a comment goes on to the end of the input; it is malformed exactly if that is a block comment |
| LexMeaning.FillerIsSpelled | internal/tengo/lexer.go:338-380 | every input can be read in that way |
| LexMeaning.StringTokenIs | internal/tengo/lexer.go:385-434 | a quoted token ends with the first quote that is neither doubled nor, but for backticks, behind a backslash, and is malformed without one |
| LexMeaning.StringIsWritten | internal/tengo/lexer.go:385-434 | every input behind a quote can be read in that way |
| WordMeaning.NextTokenIs | internal/tengo/lexer.go:147-263 | filler is looked for before the delimiter, the delimiter before strings, and strings before everything else |
| WordMeaning.DelimiterTokenIs | internal/tengo/lexer.go:156-170 | a delimiter token takes one line end with it |
| WordMeaning.WordIs | internal/tengo/lexer.go:212-258 | a word goes on over ASCII letters, digits, dollar signs, underscores and code points of up to 16 bits that are no whitespace, and ends where there is no other or at the delimiter |
| WordMeaning.NumberIs | internal/tengo/lexer.go:173-258 | digits, a decimal point with digits and an exponent make up one number, unless a letter follows digits without a point |
| WordMeaning.NumberTurnsWord | internal/tengo/lexer.go:224-250 | in that case all of it is one word |
| WordMeaning.SymbolIs | internal/tengo/lexer.go:173-199 | everything else is a symbol of one rune |
| Lexer.Lexer.BufferAndPeek | internal/tengo/lexer.go:282-287 | sets bytes aside without losing any, and shows more of the input |
| Lexer.Lexer.ScanString | internal/tengo/lexer.go:385-434 | whatever the refills, the token is the quoted string at the start of the whole remaining input, malformed exactly if its quote is never closed |
| Lexer.Lexer.ScanFiller | internal/tengo/lexer.go:338-380 | outside command mode, whatever the refills, the token is the longest run of whitespace and comments at the start of the remaining input |
| Lexer.Lexer.ScanWord | internal/tengo/lexer.go:173-259 | whatever the refills, the token is the word, number or symbol at the start of the remaining input |
| Lexer.Lexer.Scan | internal/tengo/lexer.go:104-263 | returns the next token of the whole remaining input, always without losing a byte, without cutting a rune of valid UTF-8 and, with a non-empty delimiter, with at least one byte |
| Lexer.Lexer.ScanBOM | internal/tengo/lexer.go:268-276 | consumes a byte-order mark if and only if the input starts with one |
| Lexer.ScanAll | internal/tengo/lexer.go:104-263 | over a whole input the tokens do not depend on the refills, and together are the input |
| Quoting.StripEscaped | internal/tengo/util.go:16-19 | stripBackticks undoes EscapeIdentifier |
| Quoting.IdentifierIsOneToken | internal/tengo/lexer.go:385-434 | an escaped identifier is read as exactly one identifier token if and only if no backtick follows |
| Quoting.EscapeValueForCreateTable | internal/tengo/util.go:25-37 | the five replacement passes amount to one map over the characters |
| Quoting.ValueIsOneToken | internal/tengo/lexer.go:385-434 | a quoted value is read as exactly one string token if and only if no quote follows |
| Quoting.EscapedMeansValue | internal/tengo/util.go:21-37 | read as a literal, an escaped value stands for the value |
| Positions.PositionAfter | internal/tengo/parser.go:140-152 | the loop over line ends computes line and column |
| Positions.RunesAddUpIff | internal/tengo/parser.go:140-152 | the runes of two texts add up if and only if no rune of both together reaches across the boundary |
| Positions.AfterConcat | internal/tengo/parser.go:140-152 | positions add up over two texts if and only if no rune reaches across the boundary or a line starts behind it |
| ParsedStatements.PositionsAreAbsoluteIff | internal/tengo/parser.go:154-186 | the positions counted statement by statement are those in the whole text if and only if no rune reaches across the start of a statement without a line end |
| ParsedStatements.PositionsAreAbsolute | internal/tengo/parser.go:154-186 | the recorded line and column of each statement are those of its first character in the whole text, the byte-order mark not counted, if each statement starts with a rune |
| ParsedStatements.SplitRuneIsMiscounted | internal/tengo/parser.go:140-186 | a concrete list of statements in which the column of the last one is wrong |
| Parser.Parser.NextToken | internal/tengo/parser.go:204-234 | appends the next token of the input to the statement, at its offset |
| Parser.Parser.NextTokens | internal/tengo/parser.go:244-252 | grows the list to the wanted length unless a delimiter, an error or the end comes first; the tokens stand in the text in order |
| Parser.Parser.MatchNextSequence | internal/tengo/parser.go:275-315 | matches the longest wanted sequence whose text the tokens start with and loses no token; if that has more words than there are tokens, which takes a delimiter with a space in it, the slice is out of range |
| ParserTokens.JoinsIsMatches | internal/tengo/parser.go:300-314 | comparing joined texts is comparing token by token, if no token has a space in it that is not quoted |
| ParserTokens.JoinedDelimiterPanics | internal/tengo/parser.go:300-314 | two concrete tokens that match a sequence of three words |
| Parser.Parser.ParseObjectNameClause | internal/tengo/parser.go:372-399 | records the name, qualifier and the exact piece of text, or nothing, and leaves the tokens behind the name |
| Parser.Parser.FinishStatement | internal/tengo/parser.go:259-266 | closes the statement at the position behind its text, with the delimiter it was under |
| Parser.Parser.UntilDelimiter | internal/tengo/parser.go:417-427 | the statement ends with the next delimiter, or with the input; without client commands that is its first delimiter in the whole-input lexer |
| Parser.Parser.UseCommand | internal/tengo/parser.go:429-464 | the default database becomes the argument of the command, if it has one |
| Parser.Parser.DelimiterCommand | internal/tengo/parser.go:466-515 | the delimiter becomes the argument of the command, and stays if there is none; it is never empty |
| Parser.Parser.StoredProgram | internal/tengo/parser.go:616-652 | compound exactly if a BEGIN was read; a delimiter inside is passed over only behind BEGIN and without any DELIMITER command |
| Parser.Parser.CreateTable | internal/tengo/parser.go:529-553 | a CREATE TABLE statement is recognized exactly if it has a name; its tokens are CREATE, DEFINER clauses, TABLE, IF NOT EXISTS exactly if that follows, the name and the rest; a SELECT in the rest, and nothing else, is an error |
| Parser.Parser.CreateRoutine | internal/tengo/parser.go:555-573 | a function or procedure, by its keyword, is recognized exactly if it has a name; its tokens are CREATE, DEFINER clauses, the keyword, IF NOT EXISTS exactly if that follows, the name and the rest; it is compound exactly if BEGIN is in the rest, and then goes on to the end of the input unless there was a DELIMITER command |
| Parser.Parser.CreateWithDefiner | internal/tengo/parser.go:575-605 | ends for any number of DEFINER clauses; what is recognized behind them is what all the tokens tell |
| Parser.Parser.DefinerClause | internal/tengo/parser.go:575-597 | a clause is accepted exactly if the tokens start with one for CURRENT_USER, with or without parentheses, or user@host, in front of another token; exactly its tokens are used up |
| Parser.Parser.Process | internal/tengo/parser.go:182-200 | the first token decides what a statement can be |
| Parser.Parser.NextStatement | internal/tengo/parser.go:154-200 | each statement takes at least one byte of the input |
| Parser.ParseStatements | internal/tengo/parser.go:25-47 | on success the texts of the statements, none of them empty, are together the input; positions follow from the texts, and are those in the whole text if that is valid UTF-8; each statement but a DELIMITER command records the delimiter and database in force, which change to the argument of a client command and at no other place; a statement that starts with CREATE is exactly what all its tokens tell: it has kind, object, qualifier and name if there is a name, and is compound exactly if it is a routine with BEGIN behind the name (`CreateShapes.WrittenIsTold` says which tokens those are); a statement is a no-op exactly if it is filler or a delimiter of its own, and unknown if it starts with any other token but a client command; a compound statement is the last one unless a DELIMITER command is in front of it; no CREATE TABLE has a SELECT behind its name unless that is the error; without client commands the statements behind any byte-order marks are the groups of tokens of the rest of the input, whatever the refills, each up to its first delimiter, but for a last one that is compound; each kind of error has its cause in the text |
| CreateShapes.WrittenIsTold | internal/tengo/parser.go:515-605 | a statement written as CREATE, any number of DEFINER clauses, TABLE, PROCEDURE or FUNCTION in letters of any case, an optional IF NOT EXISTS, and tokens that start with a name, is recognized with that kind, name and qualifier; a routine is compound exactly if BEGIN is behind its name |
| CreateShapes.NameOfIs | internal/tengo/parser.go:401-410 | a word is its own name, an escaped identifier stands for what was escaped, text in double quotes for itself, and symbols, numbers, delimiters and other strings are no names |
| CreateShapes.QualifiedIs | internal/tengo/parser.go:372-399 | a name, a period and another name are qualifier and name |
| CreateShapes.UnqualifiedIs | internal/tengo/parser.go:372-399 | a name without a period behind it is the name, without qualifier |
| Parser.Parser.Dispatch | internal/tengo/parser.go:516-527 | whatever follows CREATE, the statement is what all its tokens tell, although the parser looks at twenty, six or three of them at a time |
| TokenGroups.GroupsOf | internal/tengo/parser.go:154-200 | complete statements are the groups of their tokens, whatever follows |
| TokenGroups.NoopsMeetAtDelimiters | internal/tengo/parser.go:168-178 | of two no-op statements in a row one is a delimiter of its own |
| TokenGroups.TwoNoops | internal/tengo/parser.go:168-178 | two delimiters in a row are two no-op statements |
| Statements.Statement.SplitTextBody | internal/tengo/statement.go:82-92 | body and suffix together are the text |
| Statements.Statement.NormalizeTrailer | internal/tengo/statement.go:96-115 | the new text as a function of the old |
| Statements.NormalizedBody | internal/tengo/statement.go:94-115 | normalizing changes the trailer only |
| Statements.NormalizeIdempotentIff | internal/tengo/statement.go:94-115 | normalizing twice is normalizing once if and only if the delimiter does not end in a blank, or consists of blanks |
| Statements.NormalizedEndsLineIff | internal/tengo/statement.go:94-115 | a line end follows the delimiter, except exactly when the delimiter stood on a later line than the body without a line end of its own |
| Statements.NormalizedEndsLine | internal/tengo/statement.go:94-115 | for statements of every kind, a line end follows exactly if one did, or the trailer had none |
| SqlFile.SQLFile.AddStatement | internal/fs/sqlfile.go:84-123 | the new contents of the file as a function of the old: pruned, with a proper end, and the statement under a suitable delimiter |
| SqlFile.SQLFile.EditStatementText | internal/fs/sqlfile.go:131-157 | replaces the text of that statement, wrapping it in DELIMITER commands if it becomes compound under ";" |
| SqlFile.SQLFile.RemoveStatement | internal/fs/sqlfile.go:161-167 | removes exactly that statement |
| SqlFileEdits.CommandSets | internal/fs/sqlfile.go:68-76 | a generated DELIMITER command, read back, sets just that delimiter |
| SqlFileEdits.AddKeeps | internal/fs/sqlfile.go:84-123 | adding keeps every statement under the delimiter and database it records |
| SqlFileEdits.EditKeeps | internal/fs/sqlfile.go:131-157 | so does editing |
| SqlFileEdits.RemoveKeeps | internal/fs/sqlfile.go:161-167 | so does removing |
| SqlFileEdits.EditsKeepConsistency | internal/fs/sqlfile.go:84-167 | any sequence of edits of statements other than commands keeps the file consistent, and puts no compound statement under ";" |
| SqlFileEdits.EditedCompoundIsDelimited | internal/fs/sqlfile.go:131-157 | a statement that becomes compound leaves ";" and every other statement of the file stays |
| SqlFileEdits.AddedCommandsStartLines | internal/fs/sqlfile.go:84-123 | the generated commands start a line, except exactly where the statement in front has a line end in front of its delimiter and none behind it |
| SqlFileEdits.EditedCommandsStartLines | internal/fs/sqlfile.go:144-157 | the generated command behind an edited statement starts a line, the one in front exactly if the statement did |
| WrittenFiles.EditsKeepWritten | internal/fs/sqlfile.go:84-167 | edits keep every statement with its delimiter and a line end right behind it, and every command on a line of its own |
| WrittenFiles.EditedFileReadsBack | internal/fs/sqlfile.go:48-157 | from the bytes of a file that Skeema wrote, after any sequence of edits, a client reads exactly its statements, each under its own delimiter, if and only if each of them is one statement on its own |
| ParsedFiles.ParsedIsConsistent | internal/tengo/parser.go:154-200 | a parsed file is consistent, so that the edits keep it so, if its commands read back from their text |
| ParsedFiles.PlainDelimiterReadsBack | internal/tengo/parser.go:466-515 | a DELIMITER command reads back if its argument is a plain word |
| ParsedFiles.PlainUseReadsBack | internal/tengo/parser.go:429-464 | a USE command reads back if its argument is a plain word that ends its line |
| ParsedFiles.QuotedArgument | internal/tengo/parser.go:445-464 | a quoted argument is what stands between its quotes, whatever follows it on the line |

## Left out

- Database, Docker and file-system access, and everything that reads server text formats (`instance.go`, `docker.go`, `introspect.go`, `dir.go`, the parsing of SHOW CREATE TABLE): a server answers through a parameter.
- The text of statements: clauses are values, with what the server makes of them; LOCK, ALGORITHM and WITH VALIDATION only add text and are not modelled.
- What a server does on its own to indexes when a column is dropped, to columns when a character set is converted, or to stored rows is not part of the effect of a clause.
- RenameColumn clauses, which no diff emits.
- UnsafeTypes.Unsafe: for types other than integers the verdict is a parameter, because those rules compare texts heuristically.
- CreateOptions.OptionsConverge: the options of a table are the pieces between the spaces of the string, listed in an order that is fixed by the server; a value with a space in it is not modelled.
- IndexMeaning.RedundantIffServed: values in an index are byte strings in the order of their bytes; collations and NULL are not modelled, nor which of two orders is faster to read.
- AlterEffects.SafeAlterKeeps: rows are taken to survive where a table is partitioned anew or no longer, and a modified column is judged by its type (`UnsafeTypes.IntegerGateIsExact`).
- ColumnMeaning.EquivalentIff: the names of a collation are taken to name its character set at their start only.
- CreateShapes.WrittenIsTold: it is about statements without unquoted spaces inside tokens, which only a delimiter with a space makes possible, and under another delimiter than the word EXISTS.
- WordMeaning.NumberIs: nothing is said of a number in whose middle the delimiter starts.
- Partition lists: changing the list of partitions emits a placeholder without effect, as in the code.
- SplitMeaning.SplittingPreserves: the order of FULLTEXT indexes that were added separately is claimed only where they are listed last, as servers do, and not that of foreign keys, which has no meaning.
- Verifier.SplitVerificationSettles: nothing is said where several FULLTEXT indexes had to be split and the target does not list its FULLTEXT indexes last, as servers do.
- Verifier.VerificationSettles: how `VerifyDiff` collects the statements of all tables into a logical schema for the workspace is not modelled; tables are verified one by one.
- Routines.RoutinesConverge: a CREATE is taken to create the routine with the creation-time metadata of the target, which in fact comes from the session.
- SchemaConvergence.TablesConverge: a foreign key may be created before its table exists, as Skeema runs CREATE TABLE without foreign key checks; only the order of the ALTERs is proved.
- Applier.ApplyTarget: option parsing, logging, wrapper commands and the linter are parameters; statements are run through an oracle.
- PrintedText.PrinterDrivesClient: the client reads with the rules of the lexer of this project, takes the comment that names an instance for a command, and looks for its own commands at the start of a statement only; locking between goroutines is left out because a call of Print is atomic.
- Workspace set-up, introspection and clean-up; channel operations are atomic steps.
- Lexer.Lexer.Scan: a refill is assumed to have at least eight bytes and the length of the delimiter, with eight to spare, unless it reaches the end of the input; the only read error is the end of the input. In command mode, what a filler token is is not stated, because the end of a comment then depends on the refills.
- Parser.ParseStatements: where the code panics, the model stops reading with an error of its own and returns what it has.
- Parser: annotating errors with a position, and `ParseStatementInString`.
- SqlFile: a DELIMITER command is told from a USE command by its first word, and its argument is read back from its text as the second word without outer quotes; file names, writing and deleting files.
- Positions in a valid file: `Parser.ParseStatements` claims them on success only, as an unclosed comment in a client command can make the lexer return bytes that are no runes.
- WrittenFiles.EditedFileReadsBack: it is about files without comments, blank lines and USE commands, as Skeema writes them. In others the text of an edited file, parsed again, need not give the same list: two comments that meet where a statement was removed become one, and a last statement without a delimiter that was not recognized takes in what is added behind it.
- Command handlers, configuration, the other lint rules, terminal output.
