# Verification of Archivematica's pipeline algorithms

Archivematica turns transfers into archival packages. Between its services and databases it relies on a
number of self-contained algorithms over trees, tables, queues and strings. This project models those
algorithms in Dafny and proves what their users rely on. Each module keeps the form of the code it models:
code that updates objects in place is a class with methods, each proved against a specification function,
and the laws are lemmas about these functions; concurrent code is a step system whose runs are sequences of
steps.

| modules | subject |
|---|---|
| ChangeNames, KeptNames, CleanTree, ObjectNames, NameChanging, MaskedNames, AbortedWalks, DiskAndDatabase, RenameEvents, CleanUpExamples | file name clean-up on disk, and the batched updates of the database that follow it |
| MetsDiv, StructMap, StructMapTree, EmptyDirectories | the normative structMap, built from a flat path list and read back to restore empty directories |
| Listings, FileSec, FileSecNumbers, FileSecFiles, FileSecElements, NormativeDmdIds, MetsStates, MetsIds, MetsDocument, MetsIntegrity, MetsFiles, MetsOrder, MetsReferences, MetsExamples | the AIP METS: one recursive walk that hands out IDs and references, and the integrity of the document |
| SortedKeys, MetadataCsv, MetadataParser | metadata from JSON objects to CSV rows and back to per-file dictionaries |
| Quoting, ShellLines | quoting of command arguments, and the POSIX lexer of `shlex` with the client's correction |
| Metrics, MetricsOrder, MetricsRuns, MetricsSums, Listener, RunTask | metric events of worker processes, the queue to their parent, and the counters of jobs |
| Allocation, Pool | which worker slot serves which script, and the supervised pool |
| SaxBuilder | SAX events to nested objects |
| Choices, ProcessingConfig | editing a processing configuration in place |
| FsEntries, ActiveAgents, FileAgents, Events, EventLinks | the tree of a transfer's METS, and batched insertion of PREMIS events |
| PadPath | numbering a destination path until it is free |
| Unicode, Strings, Numbering, Sequences, FirstFree, FileTree, Results | what several modules use |

What is a foreign system to the code is a parameter here: `unidecode` is any function that keeps ASCII text,
Unicode normalisation any function that keeps ASCII text and is idempotent, the clock a list of times, the
database a table of rows, a directory listing a value.

Each operation is described twice: by a specification function that follows the code, which the method
computes, and by a theorem about the result that is stated without that function.

The main results, each for all inputs or all runs:

- names: `KeptNames.NewNameKeeps`, `KeptNames.TreeKept`; disk and database after clean-up:
  `DiskAndDatabase.AgreementIff`, `DiskAndDatabase.DiskAndDatabaseAgree`, `RenameEvents.OneEventForEachMove`;
- the normative structMap: `StructMapTree.StructMapShowsDirectory`, `EmptyDirectories.EmptyDirectoriesRestored`;
- the METS document: `MetsFiles.HrefsAreFiles`, `MetsFiles.FptrLeadsToFile`, `MetsFiles.GroupNamed`,
  `MetsFiles.StructMapMirrors`, `MetsOrder.FileSecInOrder`, `MetsIntegrity.IdsAreUnique`, `MetsIntegrity.EveryFileOnce`,
  `MetsReferences.PhysicalUsed`, `MetsReferences.UnusedIff`, `MetsReferences.ReferenceLands`, reached by
  `MetsStates.CreateMets`;
- metadata: `MetadataParser.JsonCsvRoundTrip`, `MetadataParser.TableRead`; command lines:
  `ShellLines.WordsIff`, `Quoting.CommandLineRoundTrip`, `Quoting.ReadsAsShellIff`;
- metrics: `MetricsSums.StepIs`, `MetricsRuns.OrderIndependentIff`, `MetricsSums.InterleavingsAgree`,
  `Listener.Conservation`, `Listener.StopTerminates`, `RunTask.JobCountersAreExact`;
- workers: `Pool.ConcurrencyRespected`, `Pool.NoStartsAfterJoin`, `Pool.StopTerminates`, `Allocation.ServedIs`;
- `SaxBuilder.DocumentConverted`, `ProcessingConfig.ConfigUpdatesMap`, `ProcessingConfig.ConfigSucceedsIff`,
  `ProcessingConfig.ConfigIsIdempotent`, `FsEntries.FsEntriesTree.Scan`, `FileAgents.OneAtATime`,
  `EventLinks.InsertedAre`, `Events.OneByOneIff`, `PadPath.PadTries`, `PadPath.PadFailsIff`.

Where the code does less than its documentation or its callers suggest, the model follows the code: a lemma
gives an input, and another says exactly when the expectation is met.

- Clean-up in batches can depend on the batch size when a normalised old path is the new path of an earlier
  entry (input: `CleanUpExamples.KelvinSignBreaksBatches`; exactly when: `DiskAndDatabase.AgreementIff`).
- A cleaned name exceeds the length limit when its extension and number alone do; the walk then raises, and
  the rows of an unfinished batch and of entries below a renamed directory do not follow (inputs:
  `CleanUpExamples.LongNameStopsWalk`, `CleanUpExamples.UnmetFileIsLost`; exactly when:
  `CleanTree.WalkSucceedsIff` with `ChangeNames.NewNameFits`, and `DiskAndDatabase.AgreementIff`).
- The DMDIDs of a file whose label is not its name need not reach the normative structMap (input:
  `MetsExamples.LabelDecides`; exactly when: `MetsReferences.FileUsed`).
- The GROUPID of a derived file is taken from the UUID of its source, also if the source has another GROUPID
  (input: `MetsExamples.DerivedInOtherGroup`; exactly when they agree: `MetsFiles.InGroupIff`).
- The correction after `shlex` drops backslashes that a shell keeps: those that single quotes or another
  backslash protect (inputs: `Quoting.SingleQuotedBackslashIsLost`, `Quoting.UnquotedBackslashIsLost`; exactly
  when: `Quoting.ReadsAsShellIff`). A shell is taken here as sections 2.2.1 to 2.2.3 of the POSIX.1-2017 Shell
  Command Language describe quoting; their rules for `$` and for an escaped newline are outside the comparison.
- A `set_max` event sent to a collector that is no gauge makes the error count depend on the order of events
  (input: `MetricsSums.SetMaxOfCounterDependsOnOrder`; exactly when the order of two events matters:
  `MetricsOrder.CommuteIff`, and of any number of events: `MetricsRuns.OrderIndependentIff`).
- The batched lookup of active agents compares text, the lookup for one file compares numbers (input:
  `ActiveAgents.LeadingZeroDiffers`, a key the code itself never stores; exactly when:
  `ActiveAgents.BatchAgreesIff`, and for whole insertions `Events.OneByOneIff`).
- Padding a destination path raises for an original without a period when a numbered form is a file, even if
  the original is a directory (input: `PadPath.NumberedFileBlocks`; exactly when: `PadPath.PadFailsIff`).
- An objects directory without any file is not restored, as the directory itself is gone (input:
  `EmptyDirectories.LoneDirectoryIsLost`; exactly when: `EmptyDirectories.EmptyDirectoriesRestored` with
  `EmptyDirectories.SurvivesIff`).

`dafny verify dfyconfig.toml` checks the project.

## Model

| member | source | states |
|---|---|---|
| `ChangeNames.ChangeNameFixpoints` | src/archivematica/MCPClient/clientScripts/change_names.py:29-41 | a name is left alone if and only if it is non-empty and made of allowed characters; so cleaning twice is cleaning once; only the empty name raises |
| `ChangeNames.CandidateFits` | src/archivematica/MCPClient/clientScripts/change_names.py:54-68 | a candidate name is within the limit exactly when its extension and numeric suffix alone are (a negative slice bound cuts from the wrong end otherwise) |
| `FirstFree.SearchEnds` | src/archivematica/MCPClient/clientScripts/change_names.py:59-67 | the search for a free name ends within one attempt more than there are names taken |
| `ChangeNames.FreeName` | src/archivematica/MCPClient/clientScripts/change_names.py:52-67 | the collision loop stops at the first candidate that does not exist |
| `ChangeNames.NewNameFits` | src/archivematica/MCPClient/clientScripts/change_names.py:52-69 | the name finally chosen fits the file system exactly when the extension and the number of the candidate taken do |
| `ChangeNames.NewNameIsFresh` | src/archivematica/MCPClient/clientScripts/change_names.py:44-69 | a new name has only allowed characters, differs from the old one only if that has others, and then collides with no entry |
| `KeptNames.NewNameKeeps` | src/archivematica/MCPClient/clientScripts/change_names.py:32-69 | character by character an allowed one of the decoded text stays and any other becomes an underscore; that name is taken if it fits and is free, else the longest beginning of its title that leaves room, an underscore and the first number that gives a free name, and what it has from its last period on |
| `KeptNames.PartsUnique` | src/archivematica/MCPClient/clientScripts/change_names.py:50-51 | a name comes apart in one way: the extension starts at the last period, and there is none if only periods are in front |
| `ChangeNames.Directory.ChangePath` | src/archivematica/MCPClient/clientScripts/change_names.py:44-69 | renaming replaces one name in the directory and nothing else; it raises, and changes nothing, exactly if the new name is longer than the file system allows |
| `ChangeNames.Directory.ChangeTree` | src/archivematica/MCPClient/clientScripts/change_names.py:72-95 | the recursive walk renames entry by entry and yields one tuple for each, parents before children; where a rename raises it stops, with what was renamed and yielded so far |
| `CleanTree.WalkSucceedsIff` | src/archivematica/MCPClient/clientScripts/change_names.py:72-95 | the walk comes to its end if and only if the file system takes every name chosen, and then leaves the cleaned tree and has yielded every entry |
| `CleanTree.AttemptKeepsFiles` | src/archivematica/MCPClient/clientScripts/change_names.py:72-95 | even a walk that raises half-way keeps every file with its content in its place, and siblings apart |
| `CleanTree.CleanedIsRenamed` | src/archivematica/MCPClient/clientScripts/change_names.py:72-95 | the walk keeps every file with its content in its place, changes no clean name, leaves only clean names, and never merges two siblings |
| `KeptNames.TreeKept` | src/archivematica/MCPClient/clientScripts/change_names.py:72-95 | in a complete walk every name of the tree is replaced by this rule, against the names of its siblings at that time, and nothing else changes |
| `CleanTree.ChangedIffUnclean` | src/archivematica/MCPClient/clientScripts/change_names.py:82-91 | an entry is reported as changed exactly when its old path holds a prohibited character; all new paths are clean |
| `NameChanging.NameChanger.ApplyFileUpdates` | src/archivematica/MCPClient/clientScripts/change_object_names.py:115-167 | one batch: each indexed row gets its new location and an event, all events of its file are linked to the unit's agents, the index is emptied |
| `NameChanging.NameChanger.ApplyDirUpdates` | src/archivematica/MCPClient/clientScripts/change_object_names.py:169-200 | the same for directories, without events, and only for units with directory UUIDs |
| `NameChanging.NameChanger.ChangeObjects` | src/archivematica/MCPClient/clientScripts/change_object_names.py:236-258 | the disk is that of the walk, and the tables are those of the batched run over everything it yields; if the walk raises, the last batches are not applied |
| `ObjectNames.BatchedIsSimultaneous` | src/archivematica/MCPClient/clientScripts/change_object_names.py:115-258 | if no rename starts where an earlier one started or ended, every batch size gives the rows and events of one simultaneous update |
| `ObjectNames.BatchIndependentIff` | src/archivematica/MCPClient/clientScripts/change_object_names.py:115-258 | with distinct new paths, the result is the same for every batch size and every set of rows if and only if no rename starts where an earlier one started or ended |
| `DiskAndDatabase.RowsFollowDisk` | src/archivematica/MCPClient/clientScripts/change_object_names.py:115-258 | for any renaming rule that yields clean, unused names, and renames of which none starts where an earlier one started or ended: rows and events follow the disk for every batch size |
| `DiskAndDatabase.DiskBatchesIff` | src/archivematica/MCPClient/clientScripts/change_object_names.py:115-258 | on any disk the rows and events are the same for every batch size and every set of rows if and only if no rename starts where an earlier one started or ended |
| `MaskedNames.ClashIff` | src/archivematica/MCPClient/clientScripts/change_object_names.py:106-113 | a later entry is looked up where an earlier one went if and only if, somewhere in the tree, an entry takes the normalised name of a later sibling and entries of the kind meet there |
| `MaskedNames.TwinsIff` | src/archivematica/MCPClient/clientScripts/change_object_names.py:106-113 | the normalised paths of a kind are apart if and only if the tree has no twins: siblings with one normalised name below which entries of the kind meet |
| `DiskAndDatabase.SeparateNamesHaveNoTwins` | src/archivematica/MCPClient/clientScripts/change_object_names.py:106-113 | siblings whose normalised names differ, all the way down, are no twins |
| `DiskAndDatabase.UnmaskedIff` | src/archivematica/MCPClient/clientScripts/change_object_names.py:115-258 | without twins, the renames are independent if and only if no name of the tree is masked |
| `DiskAndDatabase.UncleanIsUnmasked` | src/archivematica/MCPClient/clientScripts/change_object_names.py:106-113 | names that stay unclean under normalisation mask nothing |
| `DiskAndDatabase.DiskAndDatabaseAgree` | src/archivematica/MCPClient/clientScripts/change_object_names.py:115-258 | for every tree without twins and masked names and with new names that fit, and every batch size: each row whose old location was on disk holds that entry's new path, with one event if it changed and none otherwise, and everything equals one simultaneous update |
| `RenameEvents.OneEventForEachMove` | src/archivematica/MCPClient/clientScripts/change_object_names.py:115-167 | told from the disk alone: each row has the path its entry is at now, each entry that moved has one event with the old normalised path and the new one, and there are no other events |
| `DiskAndDatabase.DiskSettledIff` | src/archivematica/MCPClient/clientScripts/change_names.py:72-95 | a walk that raised has moved no entry of a kind, met or not, by more than normalisation, if and only if of the names chosen before the first that does not fit none differs from the normalised old one above or at such an entry |
| `DiskAndDatabase.AgreementIff` | src/archivematica/MCPClient/clientScripts/change_object_names.py:236-286 | for every disk: every row follows its entry, whatever the rows and the batch size, if and only if every new name fits and there are no twins and no masked names; or one name does not fit and the names chosen before it moved no entry of the kind |
| `CleanUpExamples.KelvinSignBreaksBatches` | src/archivematica/MCPClient/clientScripts/change_object_names.py:106-113 | an input with a masked name: U+212A normalises to an allowed letter, and two files then end up with different rows for batches of one and of two |
| `CleanUpExamples.LongNameStopsWalk` | src/archivematica/MCPClient/clientScripts/change_object_names.py:236-286 | an input with a name that does not fit: a name of 254 bytes becomes one of more than 255 characters, the walk raises, and the file renamed before it is not found under the location of its row |
| `CleanUpExamples.UnmetFileIsLost` | src/archivematica/MCPClient/clientScripts/change_object_names.py:236-286 | an input where no file was yielded: the walk renames a directory and raises at its first entry, and for no batch size the row of the other one follows |
| `StructMap.GetPathsAsFsItems` | src/archivematica/MCPClient/clientScripts/create_mets_v2.py:1475-1494 | the flat list of a walk: each directory with its emptiness, then its files |
| `StructMap.Builder.AddNormativeDivs` | src/archivematica/MCPClient/clientScripts/create_mets_v2.py:1599-1630 | the loop over the items, with its index by path, raises exactly if a parent is missing and otherwise builds the tree item by item |
| `StructMapTree.StructMapIsTree` | src/archivematica/MCPClient/clientScripts/create_mets_v2.py:1548-1630 | for every directory tree no parent is ever missing, the tree of divs built from the flat list is the directory tree, and the dmdSecs of empty directories are numbered consecutively |
| `StructMapTree.StructMapShowsDirectory` | src/archivematica/MCPClient/clientScripts/create_mets_v2.py:1548-1630 | div by div: each directory has a div with its name, those of its subdirectories and files below it, and one dmdSec of its own if and only if it is empty |
| `StructMapTree.ReferencesResolve` | src/archivematica/MCPClient/clientScripts/create_mets_v2.py:1616-1629 | the DMDIDs in it are, in document order, exactly the dmdSecs made |
| `StructMapTree.StructMapRoundTrip` | src/archivematica/archivematicaCommon/archivematicaFunctions.py:355-369 | reading the directories back gives, in walk order, the relative paths of all directories below objects outside the top-level metadata and submissionDocumentation |
| `EmptyDirectories.PruningKeepsFiles` | src/archivematica/MCPClient/clientScripts/create_mets_v2.py:1701-1707 | deleting empty directories deletes no file and adds no directory |
| `EmptyDirectories.PrunedIff` | src/archivematica/MCPClient/clientScripts/create_mets_v2.py:1701-1707 | and leaves exactly the directories with a file somewhere below |
| `EmptyDirectories.SurvivesIff` | src/archivematica/MCPClient/clientScripts/create_mets_v2.py:1701-1707 | the objects directory itself is left if and only if there is a file in the tree |
| `EmptyDirectories.Disk.ReconstructEmptyDirectories` | src/archivematica/archivematicaCommon/archivematicaFunctions.py:372-419 | what is on disk after the listed directories were made; nothing changes without an objects directory |
| `EmptyDirectories.EmptyDirectoriesRestored` | src/archivematica/archivematicaCommon/archivematicaFunctions.py:372-419 | build, delete, read back and make again: outside the two excluded subtrees every directory of the original tree and no other is there, inside them those with a file below; with no file at all nothing is restored |
| `EmptyDirectories.DeleteAndRestore` | src/archivematica/archivematicaCommon/archivematicaFunctions.py:372-419 | the methods composed in this order leave exactly the directories of that round trip |
| `EmptyDirectories.LoneDirectoryIsLost` | src/archivematica/archivematicaCommon/archivematicaFunctions.py:372-419 | an input: of an objects directory that holds one empty directory nothing is restored |
| `Listings.LeftHolds` | src/archivematica/MCPClient/clientScripts/create_mets_v2.py:1012-1013 | the sorted listings the walk works on hold exactly the files of the tree as it was, and only directories of it, in the order of names |
| `Listings.LeftIff` | src/archivematica/MCPClient/clientScripts/create_mets_v2.py:1701-1707 | a top directory is left for the walk exactly if it has a file, and in it exactly the directories with a file below |
| `FileSecNumbers.ItemsGrow` | src/archivematica/MCPClient/clientScripts/create_mets_v2.py:1052-1318 | a whole directory walk: every dmdSec made is referred to once, every file with a row has one fptr, in walk order; errors counted are problems; without problems the mets:files are those of the files, in order |
| `FileSecNumbers.DirGrows` | src/archivematica/MCPClient/clientScripts/create_mets_v2.py:1025-1324 | the same with the directory's own div and dmdSecs |
| `FileSecFiles.RowUuidsDistinct` | src/archivematica/MCPClient/clientScripts/create_mets_v2.py:1052-1318 | no UUID is emitted twice in a walk |
| `FileSecFiles.FileIdsKnown` | src/archivematica/MCPClient/clientScripts/create_mets_v2.py:1138-1140 | fileNameToFileID holds every file with a row by its path |
| `MetsStates.MetsState.CreateDmdSecs` | src/archivematica/MCPClient/clientScripts/create_mets_v2.py:295-381 | one dmdSec for all Dublin Core columns and one for the others, numbered in the order they are first met |
| `MetsStates.MetsState.GetAmdSec` | src/archivematica/MCPClient/clientScripts/create_mets_v2.py:866-908 | the loops over rights, events and agents number the parts consecutively |
| `MetsStates.MetsState.CreateFile` | src/archivematica/MCPClient/clientScripts/create_mets_v2.py:1066-1318 | the file branch, with its error and raising paths, does what the specification of one file says |
| `MetsStates.MetsState.CreateFileSec` | src/archivematica/MCPClient/clientScripts/create_mets_v2.py:992-1324 | the recursion over shared counters and lists computes the specified walk |
| `MetsStates.MetsState.FileSecElems` | src/archivematica/MCPClient/clientScripts/create_mets_v2.py:1748-1752 | the fileSec lists the groups that have files in the fixed order of uses |
| `MetsStates.CompleteNormative` | src/archivematica/MCPClient/clientScripts/create_mets_v2.py:1801-1803 | the normative structMap gets the DMDIDs of the finished physical one |
| `MetsStates.CreateMets` | src/archivematica/MCPClient/clientScripts/create_mets_v2.py:1660-1803 | the ingest branch of main computes the specified document, and raises exactly when the specification fails |
| `FileSecElements.OneIff` | src/archivematica/MCPClient/clientScripts/create_mets_v2.py:1066-1086 | the query for a path gives a row exactly if that is the only live one for it |
| `MetsFiles.MainSucceedsIff` | src/archivematica/MCPClient/clientScripts/create_mets_v2.py:992-1324 | the ingest branch raises exactly if a query for a file on disk does, or if metadata of the transfers has no objects directory to go to |
| `MetsFiles.NoErrorsIff` | src/archivematica/MCPClient/clientScripts/create_mets_v2.py:1841-1844 | no error is counted exactly if every file on disk has a row, a group and a fileGrp |
| `MetsFiles.FileDescribed` | src/archivematica/MCPClient/clientScripts/create_mets_v2.py:1282-1318 | every mets:file has as href the path of a file on disk, and the UUID, use, group and amdSec of the only live row for that path |
| `MetsFiles.HrefsAreFiles` | src/archivematica/MCPClient/clientScripts/create_mets_v2.py:1286-1303 | with no error counted, the hrefs of the fileSec are exactly the paths of the files on disk, each once |
| `MetsFiles.FptrLeadsToFile` | src/archivematica/MCPClient/clientScripts/create_mets_v2.py:1130-1137 | with no error counted, the fptr of a file's div names one mets:file, the one whose href is that file's path |
| `MetsFiles.GroupNamed` | src/archivematica/MCPClient/clientScripts/create_mets_v2.py:1142-1241 | the GROUPID is "Group-" and the UUID of the file that heads the group: its own for an original, the source for a derived file, the original for a service file, the file group of the row if it has one |
| `MetsFiles.OriginalHeadsGroup` | src/archivematica/MCPClient/clientScripts/create_mets_v2.py:1142-1241 | so files derived from an original or serving it are in its group, if no file group says otherwise |
| `MetsFiles.InGroupIff` | src/archivematica/MCPClient/clientScripts/create_mets_v2.py:1142-1241 | a derived file has the GROUPID of its source exactly if the source heads its own group |
| `MetsExamples.DerivedInOtherGroup` | src/archivematica/MCPClient/clientScripts/create_mets_v2.py:1142-1241 | an input: the source of a derived file has a file group, and the two GROUPIDs differ |
| `MetsFiles.StructMapMirrors` | src/archivematica/MCPClient/clientScripts/create_mets_v2.py:1710-1746 | the physical structMap: a div for each directory with a file and for each file, under the div of the directory they are in, with their fptrs and one DMDID for each kind of metadata column |
| `MetsFiles.NormativeMirrors` | src/archivematica/MCPClient/clientScripts/create_mets_v2.py:1691-1699 | the normative structMap as it is built shows the objects directory as it was before anything was deleted |
| `MetsFiles.AmdSecsAreOwn` | src/archivematica/MCPClient/clientScripts/create_mets_v2.py:1304-1318 | no two mets:files share an amdSec, and none has that of the objects directory |
| `MetsOrder.FileSecInOrder` | src/archivematica/MCPClient/clientScripts/create_mets_v2.py:1748-1752 | with no error counted, the fileSec has the groups in the order of uses, and in a group the files in the order of their fptrs |
| `MetsOrder.SectionsNumbered` | src/archivematica/MCPClient/clientScripts/create_mets_v2.py:1748-1799 | of each kind the sections of the document are numbered 1, 2, ..., each number once |
| `MetsOrder.PhysicalDmdIdsInOrder` | src/archivematica/MCPClient/clientScripts/create_mets_v2.py:1025-1050 | without Dublin Core for the SIP, the DMDIDs of the physical structMap are consecutive in document order and follow those of the normative one |
| `MetsOrder.FileNameLeadsTo` | src/archivematica/MCPClient/clientScripts/create_mets_v2.py:1138-1140 | a file name leads to the UUID of the only live row for the file on disk with that path, and no other name leads anywhere |
| `MetsIds.TextInjective` | src/archivematica/MCPClient/clientScripts/create_mets_v2.py:866-867 | ID attributes of different sections or files are different strings |
| `MetsDocument.FileSecIsPermutation` | src/archivematica/MCPClient/clientScripts/create_mets_v2.py:1748-1752 | the fileSec is a rearrangement of the mets:file elements made |
| `MetsIntegrity.NormativeBuilt` | src/archivematica/MCPClient/clientScripts/create_mets_v2.py:1691-1699 | the normative structMap can be built for every SIP, is the tree of its objects directory, and refers to each dmdSec made for it once |
| `MetsIntegrity.ErrorsCounted` | src/archivematica/MCPClient/clientScripts/create_mets_v2.py:1841-1844 | the error count is the number of missing rows, missing GROUPIDs and unknown uses |
| `MetsIntegrity.IdsAreUnique` | src/archivematica/MCPClient/clientScripts/create_mets_v2.py:1748-1799 | with no error counted, no two elements of the document have the same ID attribute |
| `NormativeDmdIds.BuildPath` | src/archivematica/MCPClient/clientScripts/create_mets_v2.py:1519-1532 | the path of an element is that of the LABELs above it, without the omitted one |
| `NormativeDmdIds.KeySnoc` | src/archivematica/MCPClient/clientScripts/create_mets_v2.py:1519-1532 | that path is the LABELs from the top, with a slash in front of each |
| `NormativeDmdIds.NormativeStructMap.constructor` | src/archivematica/MCPClient/clientScripts/create_mets_v2.py:1503-1507 | every element is indexed by its path as it is made, so that the later of two with one path is kept |
| `NormativeDmdIds.NormativeStructMap.SetDmdId` | src/archivematica/MCPClient/clientScripts/create_mets_v2.py:1534-1545 | the DMDID of the element with that path, if there is one, is extended |
| `NormativeDmdIds.NormativeStructMap.UpdateDmdIds` | src/archivematica/MCPClient/clientScripts/create_mets_v2.py:1633-1639 | all DMDIDs of the physical structMap are copied, in document order |
| `NormativeDmdIds.CopiedAre` | src/archivematica/MCPClient/clientScripts/create_mets_v2.py:1534-1545 | each normative element refers to its own dmdSec, then to those of all physical elements with its path, in document order |
| `NormativeDmdIds.CopiedFrom` | src/archivematica/MCPClient/clientScripts/create_mets_v2.py:1534-1545 | a DMDID is copied to an element if and only if a physical element with its path has it and no later normative element has that path |
| `MetsReferences.NormativeElements` | src/archivematica/MCPClient/clientScripts/create_mets_v2.py:1599-1630 | for every SIP, document order of the normative elements is the order they are made in: the SIP, then the items of the walk, with their paths as LABELs |
| `MetsReferences.PhysicalElement` | src/archivematica/MCPClient/clientScripts/create_mets_v2.py:1021-1137 | every element of the physical structMap is that of the SIP, of a directory or of a file on disk, with the LABELs of its path, the last one replaced by the label of a file |
| `MetsReferences.ReferenceLands` | src/archivematica/MCPClient/clientScripts/create_mets_v2.py:1633-1639 | in the final document, the DMDID of a physical element is on the last normative element with its path and on no other |
| `MetsReferences.UnusedIff` | src/archivematica/MCPClient/clientScripts/create_mets_v2.py:1748-1803 | of the dmdSecs made, exactly those whose DMDID the Dublin Core of the SIP replaces are referred to by nothing in the final document |
| `MetsReferences.EmptyDirectoryUsedOnce` | src/archivematica/MCPClient/clientScripts/create_mets_v2.py:1616-1629 | the dmdSec of an empty directory is referred to once |
| `MetsReferences.PhysicalUsed` | src/archivematica/MCPClient/clientScripts/create_mets_v2.py:1633-1639 | every other dmdSec in use is referred to twice if a normative structMap is made and has the path of its element, and once otherwise |
| `MetsReferences.DirectoryUsedTwice` | src/archivematica/MCPClient/clientScripts/create_mets_v2.py:1633-1639 | so those of the SIP and of each directory from objects downwards are referred to twice |
| `MetsReferences.MetadataUsedOnce` | src/archivematica/MCPClient/clientScripts/create_mets_v2.py:1633-1639 | those of the top-level metadata directory once |
| `MetsReferences.FileUsed` | src/archivematica/MCPClient/clientScripts/create_mets_v2.py:1088-1135 | those of a file below objects twice if its label is its name, and with another label if and only if an entry of the objects directory has the path of LABELs |
| `MetsExamples.LabelDecides` | src/archivematica/MCPClient/clientScripts/create_mets_v2.py:1534-1545 | an input: the document of one labelled file refers to its dmdSec once, that of the same file without a label twice |
| `MetsReferences.DmdIdsResolve` | src/archivematica/MCPClient/clientScripts/create_mets_v2.py:1748-1803 | every DMDID of both structMaps of the final document names a dmdSec |
| `MetsIntegrity.AdmIdsResolve` | src/archivematica/MCPClient/clientScripts/create_mets_v2.py:1731-1733 | every ADMID names an amdSec |
| `MetsIntegrity.FileIdsResolve` | src/archivematica/MCPClient/clientScripts/create_mets_v2.py:1748-1799 | with no error counted, the FILEIDs are exactly the IDs of the mets:files |
| `MetsIntegrity.EveryFileOnce` | src/archivematica/MCPClient/clientScripts/create_mets_v2.py:1748-1799 | with no error counted, every file of the SIP as it was before empty directories were deleted has one row, exactly one fptr and exactly one mets:file |
| `MetsIntegrity.EveryFptrHasFile` | src/archivematica/MCPClient/clientScripts/create_mets_v2.py:1130-1137 | every fptr is that of a file on disk |
| `MetsIntegrity.FileNamesResolve` | src/archivematica/MCPClient/clientScripts/create_mets_v2.py:972-981 | a FILEID looked up for a custom structMap names a mets:file |
| `MetadataCsv.FetchKeys` | src/archivematica/MCPClient/clientScripts/json_metadata_to_csv.py:7-48 | the header: sorted keys with filename (or parts) first, each repeated as often as its longest list |
| `MetadataCsv.HeaderIs` | src/archivematica/MCPClient/clientScripts/json_metadata_to_csv.py:7-48 | a column for every key of an object and as many as the longest list under it, together and in the order of keys, with filename, or else parts, in front |
| `MetadataCsv.RepeatColumns` | src/archivematica/MCPClient/clientScripts/json_metadata_to_csv.py:43-46 | inserting copies key by key repeats every column in place |
| `MetadataCsv.ObjectToRow` | src/archivematica/MCPClient/clientScripts/json_metadata_to_csv.py:62-86 | each column shows the next element of a list, or a scalar once; what is left of the caller's object |
| `MetadataCsv.WriteCsv` | src/archivematica/MCPClient/clientScripts/json_metadata_to_csv.py:101-112 | the whole table: header and one row per object |
| `MetadataParser.ValuesDict.SetItem` | src/archivematica/MCPClient/clientScripts/archivematicaCreateMETSMetadataCSV.py:70-77 | empty values are dropped, others appended |
| `MetadataParser.ParseMetadataCSV` | src/archivematica/MCPClient/clientScripts/archivematicaCreateMETSMetadataCSV.py:80-129 | the loops compute the specified reading: trimmed header, stripped names, blank rows skipped, later rows overwrite |
| `MetadataParser.TableRead` | src/archivematica/MCPClient/clientScripts/archivematicaCreateMETSMetadataCSV.py:80-129 | any table: the name of a row is its first cell without the slashes at its end, and it has the values of its last row, under each trimmed column name the non-empty cells in order |
| `MetadataParser.NamesRead` | src/archivematica/MCPClient/clientScripts/archivematicaCreateMETSMetadataCSV.py:108-127 | only rows give names |
| `Strings.StripIff` | src/archivematica/MCPClient/clientScripts/archivematicaCreateMETSMetadataCSV.py:107-107 | trimming cuts blanks at both ends and nothing else |
| `MetadataParser.JsonCsvRoundTrip` | src/archivematica/MCPClient/clientScripts/archivematicaCreateMETSMetadataCSV.py:80-129 | for every list of objects with a scalar filename and trimmed keys, each filename being a name followed by any number of slashes, parsing what is written gives each name's metadata; of two objects for one name the last wins |
| `MetadataParser.EveryObjectReadBack` | src/archivematica/MCPClient/clientScripts/archivematicaCreateMETSMetadataCSV.py:80-129 | so the last object for a name is read back in full under that name, key by key and value by value |
| `Quoting.CommandLineRoundTrip` | src/archivematica/MCPClient/client/utils.py:7-15 | every list of strings, escaped, quoted and joined with spaces, is parsed back to the same list |
| `ShellLines.LineRead` | src/archivematica/MCPClient/client/utils.py:7-15 | every line of words made of plain, single-quoted, double-quoted and escaped parts, with any non-empty runs of blanks between them, is read as the texts of these words |
| `ShellLines.WordsIff` | src/archivematica/MCPClient/client/utils.py:7-15 | a line gives a list of words if and only if it is written as these; all others end in an open quote or with a single backslash |
| `ShellLines.ClientReads` | src/archivematica/MCPClient/client/utils.py:7-15 | the client reads such a line as these words if it has no backtick |
| `Quoting.ReadsAsShellIff` | src/archivematica/MCPClient/client/utils.py:7-15 | the client reads a line that can be read as a shell does, as far as blanks, quotes, backslashes and backticks go, if and only if no word of it has a literal backslash right before a backtick that is not escaped in double quotes |
| `Quoting.SingleQuotedBackslashIsLost` | src/archivematica/MCPClient/client/utils.py:7-15 | an input: in single quotes a shell keeps the backslash before a backtick and the client drops it |
| `Quoting.UnquotedBackslashIsLost` | src/archivematica/MCPClient/client/utils.py:7-15 | an input without quotes: of three backslashes and a backtick the client leaves the backtick alone |
| `Metrics.Parent.ApplyEvent` | src/archivematica/MCPClient/client/metrics.py:365-389 | looking up the series, acting on it and counting the event, on every path that raises and every one that does not |
| `Metrics.Parent.Apply` | src/archivematica/MCPClient/client/metrics.py:430-440 | an event that raises is counted as an error |
| `Metrics.Parent.Drain` | src/archivematica/MCPClient/client/metrics.py:422-428 | draining applies the queued events in order |
| `MetricsSums.EffectIs` | src/archivematica/MCPClient/client/metrics.py:365-389 | which events act on a series and how, and which raise: told from the declared type, the labels and the sign of the value |
| `MetricsSums.StepIs` | src/archivematica/MCPClient/client/metrics.py:365-389 | what one event does to its own series: added, put, raised to, recorded, or nothing |
| `MetricsSums.StepLeaves` | src/archivematica/MCPClient/client/metrics.py:386-389 | and to the others nothing; it is counted once, as applied or as raising |
| `MetricsSums.SeriesIsMade` | src/archivematica/MCPClient/client/metrics.py:367-368 | an event with the labels declared makes its series, even if it raises then |
| `MetricsOrder.Commute` | src/archivematica/MCPClient/client/metrics.py:365-389 | events that do not conflict commute on every registry |
| `MetricsOrder.CommuteIff` | src/archivematica/MCPClient/client/metrics.py:365-389 | two events commute on every registry if and only if they do not conflict: same series, and set or increment against another kind of write, different set values, or different maxima recorded for a collector without set |
| `MetricsRuns.OrderIndependentIff` | src/archivematica/MCPClient/client/metrics.py:365-389 | all orders of a collection of events give one registry, from every start, if and only if each series is decided: what is added to is neither set nor raised, what is set is set to one value, which is also the highest it is raised to, and a maximum without a gauge is one value |
| `MetricsSums.InterleavingsAgree` | src/archivematica/MCPClient/client/metrics.py:461-524 | so do well-typed inc, set_max and observe events: any two interleavings agree |
| `MetricsSums.CountersAreSums` | src/archivematica/MCPClient/client/metrics.py:370-371 | a counter is the sum of its increments |
| `MetricsSums.GaugesAreMaxima` | src/archivematica/MCPClient/client/metrics.py:374-380 | a gauge only set_max writes holds the highest value it was given |
| `MetricsSums.GaugesAreLevels` | src/archivematica/MCPClient/client/metrics.py:370-373 | without set_max, a gauge holds the value last put, plus what was added since |
| `MetricsSums.HistogramsHoldObservations` | src/archivematica/MCPClient/client/metrics.py:381-382 | a histogram holds the multiset of observations |
| `MetricsSums.EveryEventCounted` | src/archivematica/MCPClient/client/metrics.py:386-389 | every event is counted once, as applied or as raising |
| `MetricsSums.WellTypedNeverRaise` | src/archivematica/MCPClient/client/metrics.py:365-389 | well-typed events never raise |
| `MetricsSums.SetMaxOfCounterDependsOnOrder` | src/archivematica/MCPClient/client/metrics.py:374-380 | a set_max sent to a counter raises twice or once depending on the order, as the maximum is recorded before the failing call |
| `Listener.StepKeeps` | src/archivematica/MCPClient/client/metrics.py:392-440 | every step of producers, listener and stop keeps the invariant of the queue protocol |
| `Listener.Conservation` | src/archivematica/MCPClient/client/metrics.py:392-485 | in every reachable state, for each collector and action: sent = applied + raised + dropped + queued + held, at most one is held, the queue is within bounds, events are applied in queue order |
| `Listener.StoppedIsDrained` | src/archivematica/MCPClient/client/metrics.py:408-428 | once stop has returned nothing is held, whatever is queued was sent since, and the registry is that of all other accepted events |
| `Listener.RegistryOfRun` | src/archivematica/MCPClient/client/metrics.py:392-440 | two runs that accept the same well-typed events and stop with producers quiet leave the same registry |
| `Listener.StopTerminates` | src/archivematica/MCPClient/client/metrics.py:408-428 | until stop returns some step is possible, and with producers quiet every step brings the end nearer |
| `RunTask.Job.SetStatus` | src/archivematica/MCPClient/client/job.py:119-122 | a zero code does not overwrite the exit code |
| `RunTask.BulkMarkFailed` | src/archivematica/MCPClient/client/job.py:68-76 | every job ends with exit code 1 |
| `RunTask.Run` | src/archivematica/MCPClient/client/worker.py:12-38 | the final exit codes, the jobs counted and the events sent, for scripts that return, that raise and that are missing, and for writes to the Task table that raise |
| `RunTask.JobCountersAreExact` | src/archivematica/MCPClient/client/worker.py:20-38 | over any number of run_task calls whose events interleave arbitrarily, the job counter grows by the number of jobs counted and the error counter by the number of non-zero exit codes among them |
| `RunTask.TimestampsAreLatest` | src/archivematica/MCPClient/client/worker.py:20-38 | however events interleave, the timestamp of a script's jobs with a given outcome is the time of the last of them |
| `Allocation.InitScripts` | src/archivematica/MCPClient/client/pool.py:195-217 | the nested loops over remaining counts give slot i the scripts that may have more than i workers; the argument is not changed |
| `Allocation.ServedIs` | src/archivematica/MCPClient/client/pool.py:130-134 | a script is served by min(concurrency, pool size) slots |
| `Allocation.PoolSizeIs` | src/archivematica/MCPClient/client/pool.py:125-134 | the pool size is the setting, but not more than the highest concurrency of a script |
| `Allocation.NoEmptySlot` | src/archivematica/MCPClient/client/pool.py:130-134 | no worker of the pool is left without a script |
| `Allocation.SlotFollowsDict` | src/archivematica/MCPClient/client/pool.py:195-217 | a slot serves scripts in the order of the dict |
| `Allocation.SlotsAreNested` | src/archivematica/MCPClient/client/pool.py:202-207 | each slot's list is an order-preserving subsequence of the one before |
| `Pool.StepKeeps` | src/archivematica/MCPClient/client/pool.py:141-252 | every step of start, worker exit, maintenance sweep and stop keeps the supervision invariant |
| `Pool.EverySlotStarted` | src/archivematica/MCPClient/client/pool.py:141-158 | once start has returned every slot has a process |
| `Pool.LookServes` | src/archivematica/MCPClient/client/pool.py:219-252 | after the sweep has come past a slot, a live worker serves the scripts of that slot |
| `Pool.SlotsKeepScripts` | src/archivematica/MCPClient/client/pool.py:219-252 | over every run, each process ever started runs the scripts fixed for its slot, and no slot has two live processes |
| `Pool.ConcurrencyRespected` | src/archivematica/MCPClient/client/pool.py:219-252 | over every run, at most concurrency(s) live workers serve script s |
| `Pool.NoStartsAfterJoin` | src/archivematica/MCPClient/client/pool.py:160-166 | once stop has joined the maintenance thread no worker is started, to the end of the run |
| `Pool.StoppedMeansTold` | src/archivematica/MCPClient/client/pool.py:168-174 | when stop has returned every process has exited or was told to terminate |
| `Pool.RunsUntilExit` | src/archivematica/MCPClient/client/pool.py:141-252 | over every run, a process runs until it exits, and none is told to terminate before the last two loops of stop |
| `Pool.StopTerminates` | src/archivematica/MCPClient/client/pool.py:160-180 | until stop returns some thread can take a step, and every step brings the end nearer |
| `SaxBuilder.TreeBuilder.StartElement` | src/archivematica/archivematicaCommon/xml2obj.py:120-126 | the current node is stacked and a new one gets the attributes |
| `SaxBuilder.TreeBuilder.EndElement` | src/archivematica/archivematicaCommon/xml2obj.py:128-138 | the node is finished, the stack popped and the child added; raises on an empty stack |
| `SaxBuilder.TreeBuilder.Parse` | src/archivematica/archivematicaCommon/xml2obj.py:142-147 | driving the handler through events folds them over the state |
| `SaxBuilder.DocumentConverted` | src/archivematica/archivematicaCommon/xml2obj.py:142-148 | a whole document gives the conversion of its root |
| `SaxBuilder.ConvertedIs` | src/archivematica/archivematicaCommon/xml2obj.py:128-138 | an element without attributes and children becomes its trimmed text, any other a node with that text as data |
| `SaxBuilder.MangledIs` | src/archivematica/archivematicaCommon/xml2obj.py:61-64 | in a name every character but ASCII letters, digits and underscores becomes an underscore, and these stay |
| `SaxBuilder.SplittingDoesNotMatter` | src/archivematica/archivematicaCommon/xml2obj.py:140-141 | the result does not depend on how character data is cut into calls |
| `SaxBuilder.NodeHoldsAll` | src/archivematica/archivematicaCommon/xml2obj.py:93-102 | a node holds, under each mangled name, its attributes and then its children of that name, in order |
| `ProcessingConfig.Editor.RemoveChoice` | hack/box/config/loader.py:350-361 | removal while iterating over a copy drops the choices for the link and a comment right in front of each |
| `Choices.RemovedIs` | hack/box/config/loader.py:350-361 | position by position: the choices for the link go, and a comment if one of them stands right behind it; all other nodes stay, in their order |
| `Choices.ValueIff` | hack/box/config/loader.py:364-379 | the value of a link is that of the first choice for it |
| `ProcessingConfig.Editor.UpsertChoice` | hack/box/config/loader.py:364-379 | the first choice for the link gets the value, or a new one is appended |
| `ProcessingConfig.Editor.SetChoiceComment` | hack/box/config/loader.py:425-441 | the comment in front is replaced or inserted |
| `ProcessingConfig.Editor.ApplyConfig` | hack/box/config/loader.py:453-508 | the mapping is applied entry by entry and link by link; raises exactly if some entry cannot be applied |
| `ProcessingConfig.ConfigUpdatesMap` | hack/box/config/loader.py:453-508 | for every entry of the mapping and link of its field: a null entry leaves the link without a value, any other gives it the id of the first offer with a wanted label, or the location's URI; every other link keeps its value |
| `ProcessingConfig.ConfigSucceedsIff` | hack/box/config/loader.py:453-508 | it raises exactly if an entry names no field, or its value is no text or number where one is needed, no offer of a link, or no location |
| `ProcessingConfig.ConfigPutsComments` | hack/box/config/loader.py:425-441 | in front of each configured choice stands a comment with the link's prompt and a name of the value |
| `ProcessingConfig.KeyOrderDoesNotMatter` | hack/box/config/loader.py:453-508 | the order of the keys changes neither success nor any value |
| `ProcessingConfig.ConfigIsIdempotent` | hack/box/config/loader.py:453-508 | applying the same mapping again gives the same node list, comments included; a link keeps at most one choice |
| `FsEntries.BatchQuery` | src/archivematica/MCPClient/clientScripts/create_transfer_mets.py:205-213 | slices of any positive size yield every row once and in order |
| `FsEntries.FsEntriesTree.BuildTree` | src/archivematica/MCPClient/clientScripts/create_transfer_mets.py:185-203 | the tree of entries mirrors the directory, the index has every file |
| `FsEntries.FsEntriesTree.LoadFileData` | src/archivematica/MCPClient/clientScripts/create_transfer_mets.py:215-229 | each indexed file gets the UUID of the last row for its path |
| `FsEntries.FsEntriesTree.CheckForMissingFileUuids` | src/archivematica/MCPClient/clientScripts/create_transfer_mets.py:284-295 | tree and index lose exactly the entries without a UUID |
| `FsEntries.FsEntriesTree.Scan` | src/archivematica/MCPClient/clientScripts/create_transfer_mets.py:175-180 | the leaves of the tree and the keys of the index are the files on disk with a live row, each with that row's UUID; every directory is there |
| `ActiveAgents.AgentIdsByFile` | src/archivematica/archivematicaCommon/databaseFunctions.py:157-229 | the loops over files, units and agents compute the specified lookup, and raise exactly if it does for one of the files |
| `FileAgents.SoundIff` | src/archivematica/archivematicaCommon/databaseFunctions.py:102-131 | either lookup raises exactly if the rows of the file's SIP, or of its transfer if it has no SIP, are two or more or hold something that is no number |
| `FileAgents.OneAtATime` | src/archivematica/archivematicaCommon/databaseFunctions.py:102-131 | a known file gets the default agents and the existing one that the row of its SIP, or without a SIP of its transfer, has the number of; an unknown file none |
| `FileAgents.ManyAtOnce` | src/archivematica/archivematicaCommon/databaseFunctions.py:157-229 | the lookup for many files does the same with the decimal text of the key |
| `ActiveAgents.BatchAgreesIff` | src/archivematica/archivematicaCommon/databaseFunctions.py:102-131 | it agrees with the lookup for one file if and only if the stored key is in canonical decimal form |
| `ActiveAgents.LeadingZeroDiffers` | src/archivematica/archivematicaCommon/databaseFunctions.py:203-224 | an input: for a key stored as 07 one lookup finds the agent, the other none |
| `Events.BulkCreate` | src/archivematica/archivematicaCommon/databaseFunctions.py:279-279 | creating in slices of any size numbers the rows in input order; raises exactly if an event id is not new |
| `Events.EachIsAll` | src/archivematica/archivematicaCommon/databaseFunctions.py:234-306 | for any way of preparing events, preparing and inserting one after another succeeds if and only if all can be prepared and all ids are new, and creates what creating all at once does |
| `Events.OneByOneIff` | src/archivematica/archivematicaCommon/databaseFunctions.py:309-358 | insertIntoEvents for each event against insert_events for all: the first raises besides only for an empty list of agents whose file's lookup raises; else the tables are the same if and only if every active agent looked up is stored in canonical form and every empty list belongs to a file without agents |
| `EventLinks.InsertedAre` | src/archivematica/archivematicaCommon/databaseFunctions.py:234-358 | told from events and tables: inserting either way succeeds exactly if all UUIDs can be read, the ids are new and the rows of files without given agents are usable; each event then has one row with the next number, linked to its agents and to no others |
| `Events.Store.InsertEvents` | src/archivematica/archivematicaCommon/databaseFunctions.py:234-306 | for every positive batch size: everything is prepared and then created at once, the models are returned in input order with their own keys; a failure changes nothing; other batch sizes raise |
| `PadPath.PadFindsFree` | src/archivematica/archivematicaCommon/transfer_source_retrieval.py:268-296 | the path returned is the first name tried that does not exist, within one attempt more than there are entries |
| `PadPath.PaddedNameIsName` | src/archivematica/archivematicaCommon/transfer_source_retrieval.py:286-296 | the padded path stays in the directory of the original |
| `PadPath.PadTries` | src/archivematica/archivematicaCommon/transfer_source_retrieval.py:268-296 | the names tried, one by one: the number at the end if the last one was a directory, else in front of the first period; the last is the one returned, or the one that made it raise |
| `PadPath.PadFailsIff` | src/archivematica/archivematicaCommon/transfer_source_retrieval.py:289-291 | it raises if and only if the original has no period and, of its numbered forms in order, the first that is no directory exists |
| `PadPath.NumberedFileBlocks` | src/archivematica/archivematicaCommon/transfer_source_retrieval.py:289-291 | so a directory without a period is not padded past a file that has its first numbered name |

## Left out

- MetricsSums.CountersAreSums: sums are over real numbers; floating-point rounding of a sum in different orders is not modelled.
- Listener.Conservation: a queue operation is one step; the feeder threads of multiprocessing queues, which may hold an accepted event back for a moment, are not modelled.
- MetsIntegrity.IdsAreUnique: the TRIM, DSpace and Dataverse branches of createFileSec, custom structMaps, events from XML metadata and the METS editing of reingest take IDs from other documents and are not part of the document here.
- MetsIntegrity.ErrorsCounted: errors from unreadable Dublin Core files, custom structMaps and the validation of XML metadata, which are counted outside the walk, are not part of the model.
- MetsStates.CreateMets: elements are values that a call returns; the original attaches each element to its parent before filling it in. What the metsrw library makes of the document is not modelled.
- MetsStates.MetsState.CreateFile: the queries for the derivation of a file and for the original of a service file are tables of their results.
- StructMap.GetPathsAsFsItems: symbolic links to directories, which a walk lists but does not enter, are not modelled.
- EmptyDirectories.Disk.ReconstructEmptyDirectories: parsing the METS file and finding the structMap in it are not modelled.
- FsEntries.FsEntriesTree.Scan: entries are named by their paths; that index and tree share entry objects shows as one UUID table. PREMIS objects, events, rights and directory identifiers are not attached.
- Events.Store.InsertEvents: the foreign key from an event to its file, and the time stamp taken for an event without one, are left to the database and the caller.
- ProcessingConfig.ConfigIsIdempotent: the table of fields is a parameter whose links are required to be distinct and trimmed, as the 31 links listed in hack/box/config/loader.py are; cleaning of comment texts is any function.
- MetadataParser.JsonCsvRoundTrip: rows are sequences of cells; CSV quoting and newline translation (section 2 of RFC 4180) are not modelled, nor are JSON numbers, Booleans and nested objects.
- SaxBuilder.TreeBuilder.Parse: the parser is the sequence of its calls; the nodes on the stack are values, not shared objects.
- Quoting.CommandLineRoundTrip: comments and unusual punctuation settings of shlex are not modelled; the client does not use them.
- Pool.StepKeeps: the pool is a value that steps change, as its methods run beside exiting processes; a second signal arriving while stop runs, and the forkserver, are not modelled; joining a worker for a tenth of a second is a step without effect.
- RunTask.Run: a script is the status calls it makes and whether it raises; of the Task table only whether its writes raise is modelled, and log output is not.
- ChangeNames.Directory.ChangePath: a rename raises only for a name that is too long; other errors of the file system are not modelled.
- Events.OneByOneIff: an event's identifier is the one given or generated; what a failing insertion of one event leaves of the earlier ones is not compared.
- Unicode normalisation and transliteration tables, changes to a directory while it is scanned, and links are not modelled.
- Building copy requests for the Storage Service, splitting of location paths and replacement of task arguments: they would add only easy members.
- The dashboard, Gearman, Elasticsearch, the Storage Service, virus scanning and the report scripts are outside this model.
