# Verified models of the course projects

Dafny models of the parts of this repository whose behaviour is hardest to get right, with proofs about every
input, every run or every reachable state. `dafny verify dfyconfig.toml` checks the whole project.

## What is modelled

**hw1, transplant.** `serialize` walks a directory tree through one mutable path buffer and writes depth-tagged
records; `deserialize` rebuilds a tree from such a stream, using the same kind of buffer as its stack. `PathBuffer`,
`Serializer` and `Deserializer` are the program's buffers and loops; `TransplantFormat` is the record format,
`FileSystem` path resolution with ".", ".." and empty components, `Climbing` which names lead out of a directory,
`TransplantDecoder` the decoder as a function of its state, `TransplantHeaders` which bytes it accepts,
`TransplantTrees` and `TransplantRoundTrip` the question which trees come back, and `TransplantConfinement` what a
stream can make the decoder touch. The names in a stream are not checked by the program, so a stream can lead it out
of its target; the model has a stream that does, and confinement for all streams without such names, among them all
streams without two adjacent '.' characters. A write past `name_buf` or `path_buf` ends the decoding in the model, where
the program goes on; what is proved about decoding holds up to such a write.
The program calls `path_pop` after it has continued with the parent's records (hw1/src/transplant.c:289-290), and it
writes no record for an empty file. The decoder takes a flag `popFirst`: `false` is the program as written, `true` is
a corrected version that leaves a directory before it continues. Both are characterised exactly. The documentation of
`path_pop` says that a path without a '/' becomes empty and that `path_length` stays consistent; the code leaves the
first character and lets `path_length` drift upwards by one for each entry visited, and the model follows the code.

**hw4, task parser and printer.** `TaskParser` is the recursive descent on strings, `LineParser` the same parser as it
runs, writing and taking back NULs in the line. The documented syntax allows an input and an output redirection in one
pipeline (hw4/include/task.h:14-16); the parser takes at most one, so printing and parsing is not always the identity.
`TaskRoundTrip` says exactly when it is; `TaskSpacing` says what each character does between two words and how a printed
line is spaced.

**hw4, job spooler.** The job table, the enable flag and the callbacks form a state machine (`Jobs`); each user command
and each run of the SIGCHLD handler is one step, and what `fork`, `killpg` and `waitpid` deliver is part of the step.
`JobTable` is the table updated slot by slot. The sweep counts runners only in the slots below the one it looks at, so
the limit MAX_RUNNERS holds for some runs only: `JobScheduling` gives the exact condition on a table, `JobSafety` the
theorem over runs and a run of the program's own size (8 slots, 4 runners) that breaks the limit. `JobLog` checks the
callbacks of a run against the life cycle of a job, and `JobLoss` says exactly which runs pass. What the runners do
arrives as the status words of `waitpid`, decoded as the GNU C library does; `JobEffects` gives the effect of each step
slot by slot, and `JobReasons` what the fields of a job say in every run.

**hw2, rolodex.** The doubly linked list with its insertion sort (`RoloList`, with `RoloSort` for its effect on the
sequence of entries), update sessions (`RoloUpdate`), the case-blind order and search (`Collation`), and the file: `RoloFile` is the format,
`RoloReader` the reader that works inside the file buffer and replaces newlines by NULs, `RoloStore` the way from the
file to the list and back. The code leaves the number of extra fields of a new entry unset (hw2/src/rlist.c:18-22); the
model starts it at 0. Reading past the end of the file is modelled as failure.

**hw5, robust I/O and packets.** `Rio` and `RioBuffered` run against descriptors whose schedule of interrupted, partial
and failing calls is arbitrary; `RioLines` and `RioClient` say what the buffered reader delivers to a caller who mixes
its calls. `Packets` is the packet format, `PacketProtocol` sending and receiving. The header is the 12 bytes that a
little-endian host with natural alignment gives to the struct. Only a negative result of the header read counts as an
error, so the end of the stream inside a header goes unnoticed; the model says when that yields a packet.

## Model

| member | source | states |
|---|---|---|
| PathBuffers.PathBuffer.constructor | hw1/src/transplant.c:93-108 | a buffer set up by `path_init` holds exactly the name, and `path_length` is its length |
| PathBuffers.PathBuffer.Push | hw1/src/transplant.c:123-137 | the path becomes the old one, a '/' and the C string of the name; `path_length` grows by the same amount |
| PathBuffers.PathBuffer.Pop | hw1/src/transplant.c:151-171 | the path is cut before its last '/', or to its first character when it has none; -1 only for an empty path; `path_length` falls by one less than the path when there is a '/' and as the path otherwise |
| Paths.PopJoin | hw1/src/transplant.c:151-171 | `path_pop` undoes `path_push` for every path and every name without a '/' |
| Serializers.Serializer.PutNBytes | hw1/src/transplant.c:361-375 | the recursion writes the low-order bytes of a number, most significant first |
| Serializers.Serializer.PutHeader | hw1/src/transplant.c:377-385 | a record header is magic, type, four depth bytes and eight size bytes |
| Serializers.Serializer.SerializeFile | hw1/src/transplant.c:486-514 | a nonempty file becomes one FILE_DATA record with its contents, an empty file nothing |
| Serializers.Serializer.PutEntry | hw1/src/transplant.c:432-453 | an entry becomes one DIRECTORY_ENTRY record of mode, size and name |
| Serializers.Serializer.SerializeDirectory | hw1/src/transplant.c:413-471 | the output grows by exactly the records of the tree, "." and ".." left out; the path is what it was at every level; `path_length` ends one too high for each file and directory visited |
| Serializers.Serializer.Serialize | hw1/src/transplant.c:528-544 | the output is the transmission of the tree on disk |
| TransplantFormat.HeaderFields | hw1/src/transplant.c:173-220 | reading a written header gives back its type, depth and size |
| TransplantFormat.MetadataFields | hw1/src/transplant.c:249-252 | reading written metadata gives back mode and size |
| TransplantFormat.TransmissionScans | hw1/src/transplant.c:361-385 | for every tree the size fields alone cut the byte stream into exactly its records, so every size field is the real length |
| TransplantFormat.TransmissionNests | hw1/src/transplant.c:413-471 | at every prefix of every transmission START and END records nest like parentheses and each record carries the current depth |
| TransplantFormat.TransmissionInjective | hw1/src/transplant.c:528-544 | two trees with the same byte stream are the same tree, empty files included |
| Deserializers.Deserializer.VerifyMagicHeader | hw1/src/transplant.c:173-183 | three characters are consumed in any case, and accepted only if they are the magic ones |
| Deserializers.Deserializer.GetNChars | hw1/src/transplant.c:185-191 | the result is the big-endian number of the next characters, EOF counting as -1, in 64 bits |
| Deserializers.Deserializer.DeserializeFile | hw1/src/transplant.c:312-359 | outcome, input consumed, path and file system agree with DecodeFile on every input |
| Deserializers.Deserializer.PushName | hw1/src/transplant.c:257-271 | `name_buf` is zero before and after, and what is pushed is the C string of the record's own name bytes |
| Deserializers.Deserializer.DeserializeDirectory | hw1/src/transplant.c:237-293 | path, file system, remaining input and result agree with the decoder as written, on every input |
| Deserializers.Deserializer.Run | hw1/src/transplant.c:559-595 | the same for a whole stream; a failure inside a directory goes unreported |
| TransplantHeaders.OneFileTransmission | hw1/src/transplant.c:361-544 | the transmission of a directory with one nonempty file, byte for byte: magic, record types 0, 2, 4, 5, 3 and 1, depths, sizes, mode, name and data |
| TransplantHeaders.SuccessExact | hw1/src/transplant.c:559-595 | the result is 0 if and only if the stream starts with the bytes of a START_OF_TRANSMISSION header of depth 0 and, sixteen bytes on, of a START_OF_DIRECTORY header of depth 1; otherwise it is -1 |
| TransplantHeaders.EndReadAsByteExact | hw1/src/transplant.c:185-200 | as the end of the input counts as -1, a depth can be read from less than its four bytes if and only if its last byte is 0xFF |
| TransplantHeaders.DirectoryGoesOnExact | hw1/src/transplant.c:237-293 | for a depth that does not end in 0xFF: 0 if and only if magic and depth bytes are right, and -1 has only read three or eight bytes; a record of another type ends the decoding right behind its header |
| TransplantHeaders.FileMadeExact | hw1/src/transplant.c:312-359 | for such a depth: 0 if and only if a file can be made at the path and the next bytes are those of a FILE_DATA header of the depth; -1 has read nothing if something stands at the path, three bytes if the magic is wrong and else a header, and changed nothing |
| TransplantHeaders.CutFile | hw1/src/transplant.c:346-358 | a file whose data break off is made all the same, each missing byte as 0xFF, and counts as a success |
| FileSystems.EntryInsideExact | hw1/src/transplant.c:257-271 | the target of an entry lies strictly inside its directory if and only if the entry's slash-free name is nonempty and neither "." nor ".." |
| Climbing.InsideExact | hw1/src/transplant.c:257-271 | a name with any '/'s in it leads out of no directory if and only if no front part of it has more ".." than names |
| TransplantDecoder.DecodeDirConfined | hw1/src/transplant.c:237-293 | whatever the input, no existing node changes; the decoder as written creates nodes only strictly below the directory it was called for, unless a name that leads out (see InsideExact) was pushed onto an existing directory; and where no directory stands it does nothing at all |
| TransplantConfinement.DeserializeConfined | hw1/src/transplant.c:559-595 | the same for a whole stream and the target directory |
| TransplantDots.NoDotDotInside | hw1/src/transplant.c:257-271 | a name without two adjacent '.' characters leads out of no directory |
| TransplantDots.DotFreeConfined | hw1/src/transplant.c:559-595 | a stream without two adjacent '.' characters changes, on every file system and for every target path, nothing but the target and what is below it, up to a write past a buffer |
| TransplantConfinement.TargetEscaped | hw1/src/transplant.c:237-359 | a stream with an entry ".." and a file entry behind it makes the program create the file beside its target |
| TransplantConfinement.TransmissionConfined | hw1/src/transplant.c:528-595 | the stream of any tree with 16-bit modes, deserialized on any file system, leads out of no directory: nothing but the target and what is below it changes, up to a write past `path_buf`, which nested siblings can cause as written |
| TransplantRoundTrip.DecodeRebuilt | hw1/src/transplant.c:237-293 | decoding the records of a rebuildable listing adds exactly that listing and goes on with the parent, from the parent's path if it pops first and from the deepest directory otherwise |
| TransplantRoundTrip.EmptyFileIsDirectory | hw1/src/transplant.c:487-490 | an empty file, which has no record, is made into a directory, and stays one |
| TransplantRoundTrip.AfterDirectoryDiffers | hw1/src/transplant.c:289-290 | as written, if an entry follows a directory that comes back, some place of the listing ends up wrong: the entry is lost or put into the directory |
| TransplantConfinement.DisplacedAbsent | hw1/src/transplant.c:289-290 | as written, nothing of any entry that follows a directory, in the listing or at any level below, is ever created where it belongs, whatever the stream holds after the listing, up to a write past `path_buf` and unless a name leads out of a directory |
| TransplantConfinement.FollowersMissing | hw1/src/transplant.c:237-293 | for the stream of a tree with 16-bit modes and a fresh target: every such entry is missing, up to a write past `path_buf` |
| TransplantConfinement.SmallestFailure | hw1/src/transplant.c:289-290 | of an empty directory followed by a one-byte file, the file is lost as written, and popping first brings the whole tree back |
| TransplantRoundTrip.RoundTripExact | hw1/src/transplant.c:559-595 | deserializing a serialized tree into a fresh target rebuilds it if and only if no file is empty and, as written, nothing follows a directory in any listing; popping first removes the second condition; the result is 0 in any case and no buffer overruns on a rebuilt tree |
| TransplantEndToEnd.CopyTree | hw1/src/transplant.c:528-595 | running the serializer and then the deserializer copies the tree under exactly that condition |
| TaskParser.ParseTask | hw4/src/task.c:258-275 | every accepted line gives a well-formed task: nonempty lists, delimiter-free nonempty words, at most one redirection in each pipeline |
| TaskParser.ParseIsGrammar | hw4/src/task.c:118-275 | for every line, parsing is cutting the line into tokens and applying the grammar to them: spacing never matters |
| TaskRoundTrip.LexPipelines | hw4/src/task.c:72-114 | printed text consists of exactly the tokens of the task |
| TaskRoundTrip.PrintThenParse | hw4/src/task.c:72-275 | for every well-formed task, parsing the printed form gives the task if and only if no pipeline has both redirections, and NULL otherwise |
| TaskRoundTrip.PrintIsFixpoint | hw4/src/task.c:112-275 | printing an accepted line and parsing again gives the same task |
| TaskRoundTrip.ParseThenPrint | hw4/src/task.c:112-275 | the printed form of an accepted line has the tokens of the line, without the separators that nothing followed |
| TaskSpacing.ParseBetween | hw4/src/task.c:118-275 | for any two words and any character between them, by its code: white space separates the words, ';' the pipelines, a bar the commands, '<' and '>' make the second word a path, and with any other character the line is one word |
| TaskSpacing.PrintIsSpaced | hw4/src/task.c:72-114 | the printed form is the words, paths and delimiters of the task with exactly one space between neighbours |
| LineParser.Line.SkipSpacesHere | hw4/src/task.c:118-121 | the cursor moves to the first character that is not white space, never past the terminator |
| LineParser.Line.TakePlain | hw4/src/task.c:125-136 | the longest run of plain characters is copied out; the NUL poked behind it is taken back |
| LineParser.Line.ParseWordHere | hw4/src/task.c:125-142 | agrees with ParseWord; the line is unchanged and the cursor only moves forward |
| LineParser.Line.ParseWordListHere | hw4/src/task.c:144-156 | agrees with ParseWords, and the remaining length bounds the recursion |
| LineParser.Line.ParseCommandHere | hw4/src/task.c:158-170 | agrees with ParseCommand |
| LineParser.Line.ParseCommandListHere | hw4/src/task.c:172-187 | agrees with ParseCommands, and the remaining length bounds the recursion |
| LineParser.Line.ParsePathHere | hw4/src/task.c:189-199 | agrees with ParsePath; a missing path is the empty string |
| LineParser.Line.ParseRedirectionHere | hw4/src/task.c:201-224 | agrees with ParseRedirection: one redirection at most |
| LineParser.Line.ParsePipelineHere | hw4/src/task.c:226-239 | agrees with ParsePipeline |
| LineParser.Line.ParsePipelineListHere | hw4/src/task.c:241-256 | agrees with ParsePipelines, and the remaining length bounds the recursion |
| LineParser.Line.ParseTaskHere | hw4/src/task.c:258-275 | on every line the in-place parser decides as ParseTask does and leaves the line as it was |
| JobTables.JobTable.constructor | hw4/src/jobs.c:51-64 | the initial table: every slot free, starting disabled |
| JobTables.JobTable.CheckAndExecuteJobs | hw4/src/jobs.c:268-289 | the counting loop is the sweep of the state machine |
| JobTables.JobTable.ExecuteJob | hw4/src/jobs.c:291-328 | the parent's side: status change, then the process group, then the start callback |
| JobTables.JobTable.AlterStatus | hw4/src/jobs.c:567-570 | the callback reports the old and the new status |
| JobTables.JobTable.JobsSetEnabled | hw4/src/jobs.c:94-98 | one Enable step |
| JobTables.JobTable.JobCreate | hw4/src/jobs.c:104-128 | one Create step; the lowest free slot is used, and 0 rather than the job's number is returned |
| JobTables.JobTable.JobExpunge | hw4/src/jobs.c:134-149 | one Expunge step; 0 exactly for a completed or aborted job |
| JobTables.JobTable.JobCancel | hw4/src/jobs.c:157-177 | one Cancel step; 0 exactly for a live job whose process group could be killed |
| JobTables.JobTable.JobPause | hw4/src/jobs.c:179-196 | 0 exactly for a running job whose group could be signalled; the table does not change |
| JobTables.JobTable.JobResume | hw4/src/jobs.c:198-216 | 0 exactly for a paused job whose group could be signalled; the table does not change |
| JobTables.JobTable.ProcessWstatus | hw4/src/jobs.c:366-393 | each kind of status word gives its callback before its status change; WaitWords and JobLoss.RunFaithfulExact say which change |
| JobEffects.WaitWords | hw4/src/jobs.c:366-393 | for every exit code, signal, core flag and stop: exiting completes the job, a fatal signal aborts it, a stop pauses it, a continuation makes it run; -100 changes nothing |
| JobEffects.ChildEffect | hw4/src/jobs.c:330-364 | the table after a run of the handler, slot by slot: every job with a runner is changed as its status word says, no other, and then the waiting jobs that may start do |
| JobEffects.CancelEffect | hw4/src/jobs.c:157-177 | cancelling changes exactly the killed jobs that wait, run or are paused: WAITING becomes ABORTED, the others CANCELED |
| JobEffects.ExpungeEffect | hw4/src/jobs.c:134-149 | expunging frees exactly the slots of completed and aborted jobs |
| JobEffects.EnableEffect | hw4/src/jobs.c:94-98 | enabling starts the waiting jobs that may start; disabling sets the flag and nothing else |
| JobEffects.FinishEffect | hw4/src/jobs.c:66-92 | after `jobs_fini` a slot is occupied if and only if its job had not started and could not be killed, and that job is unchanged |
| JobReasons.RunExplained | hw4/src/jobs.c:66-393 | in every run, jobs lost or not: a completed job has the status word of a normal exit, an aborted one that of a fatal signal unless it was cancelled before it started, a cancelled one the cancel flag, and a waiting one no process group |
| JobReasons.DisabledRun | hw4/src/jobs.c:94-128 | while starting is disabled no job gets a runner, whatever else is done |
| JobTables.JobTable.TerminateHandler | hw4/src/jobs.c:330-364 | one Child step: every runner is asked once, then a sweep |
| JobTables.JobTable.JobsFini | hw4/src/jobs.c:66-92 | one Finish step: cancel all, then reap and expunge in slot order |
| JobScheduling.SweepEffect | hw4/src/jobs.c:268-289 | a sweep starts exactly the waiting jobs with fewer than MAX_RUNNERS waiting, running or paused jobs below them and changes no other slot |
| JobScheduling.SweepFillsFromBelow | hw4/src/jobs.c:268-289 | a job that still waits after a sweep has at least MAX_RUNNERS running or paused jobs below it |
| JobScheduling.SweepStartsLowestFirst | hw4/src/jobs.c:268-289 | no waiting job is overtaken by one in a higher slot |
| JobScheduling.SweepTwice | hw4/src/jobs.c:268-289 | a second sweep changes nothing and calls nothing back |
| JobScheduling.SweepLimitExact | hw4/src/jobs.c:268-289 | for every table, a sweep leaves at most MAX_RUNNERS running or paused jobs if and only if each running or paused job had fewer than that many live jobs below it |
| JobScheduling.CreateLimitExact | hw4/src/jobs.c:104-128 | creating a job keeps the limit if and only if every runner above its slot has room for one more job below it |
| JobSafety.StepCapped | hw4/src/jobs.c:66-177 | every step but two keeps the condition of SweepLimitExact: creating a job below a full one, and a killed job that reports a stop or continuation |
| JobSafety.RunnersStayWithinLimit | hw4/src/jobs.c:268-350 | in every run without those two, at every point, at most MAX_RUNNERS jobs are running or paused |
| JobSafety.NoReuseIsAdmissible | hw4/src/jobs.c:104-128 | a job created above all occupied slots never endangers the limit |
| JobSafety.RevivalCapExact | hw4/src/jobs.c:366-393 | a killed job that reports a stop or continuation keeps the condition if and only if its slot has the room a new job would need |
| JobSafety.ReuseExceedsLimit | hw4/src/jobs.c:104-128 | with 8 slots and 4 runners, a run that uses slot 0 again ends with five runners |
| JobLoss.StepFaithfulExact | hw4/src/jobs.c:66-177 | a step keeps callbacks and table in agreement if and only if it does not create a job from an unparsable line while a slot is free |
| JobLoss.RunFaithfulExact | hw4/src/jobs.c:104-393 | after a run each slot's callbacks are an unbroken chain from NEW, with at most one start and one end per job, no end without a start, the end of a normal exit followed by COMPLETED and any other by ABORTED, a stop by PAUSED, a continuation by RUNNING, nothing after COMPLETED or ABORTED but expunging, and give the slot's actual status, process group, cancel flag and exit status, if and only if no step of the run was such a creation |
| JobLoss.StepBroken | hw4/src/jobs.c:66-393 | once a slot's callbacks are broken, or announce a job where there is none, no later step repairs that |
| JobLoss.RunFaithful | hw4/src/jobs.c:104-393 | in particular the callbacks are right in every run whose lines all parse |
| JobLoss.UnparsedTaskBreaksChain | hw4/src/jobs.c:104-128 | a job created from an unparsable line is announced but its slot stays free, and the next job there breaks the chain |
| Collation.NocaseCompare | hw2/src/toolsdir/ctools.c:244-264 | the result is negative if and only if, at the first place where the upper-case forms differ, the first text has ended or has the smaller character, and positive if and only if the second has |
| Collation.UpperForm | hw2/src/toolsdir/ctools.c:145-149 | an upper-case form is never a lower-case letter, and only letters change |
| Collation.UpperSame | hw2/src/toolsdir/ctools.c:145-149 | two characters have one upper-case form if and only if they are equal or the two cases of one letter |
| Collation.CompareReversed | hw2/src/toolsdir/ctools.c:244-264 | swapping the arguments negates the result |
| Collation.CompareTransitive | hw2/src/toolsdir/ctools.c:244-264 | the order is transitive, strictly if either step is strict |
| Collation.CompareZero | hw2/src/toolsdir/ctools.c:244-264 | 0 exactly for texts with the same upper-case form |
| Collation.StrNCSearch | hw2/src/toolsdir/ctools.c:343-374 | the leftmost match is found, and none is missed |
| Collation.ContainsIsOccurrence | hw2/src/toolsdir/ctools.c:343-374 | a match means that some part of the text compares equal to the pattern |
| RoloList.Rolodex.RoloInsert | hw2/src/rlist.c:27-65 | for every well-linked list the new element goes in front of the first greater one, Begin, End, prev and next describing exactly the new list |
| RoloList.Rolodex.RoloDelete | hw2/src/rlist.c:68-93 | exactly the given element leaves a well-linked list, sorted or not |
| RoloList.Rolodex.RoloReorder | hw2/src/rlist.c:109-119 | relinking in place from any well-linked list gives the insertion sort of its elements, well linked |
| RoloList.CompareLinks | hw2/src/rlist.c:96-106 | compares the names of two elements |
| RoloSort.SortedMeans | hw2/src/rlist.c:96-106 | a list is sorted if and only if no name precedes one in front of it in the alphabet |
| RoloSort.InsertSorted | hw2/src/rlist.c:27-65 | insertion into a sorted list keeps it sorted |
| RoloSort.InsertStable | hw2/src/rlist.c:27-65 | among equal names the new element comes last |
| RoloSort.SortStable | hw2/src/rlist.c:109-119 | reordering gives the same elements, sorted, equal names in their old order |
| RoloSort.SortIdempotent | hw2/src/rlist.c:109-119 | a sorted list is left as it is |
| RoloSort.AdjacentIsSorted | hw2/src/io.c:149-158 | comparing neighbours decides whether the whole list is sorted |
| RoloList.Rolodex.OutOfOrder | hw2/src/io.c:149-158 | `reorder_file` is set exactly for an unsorted list |
| RoloList.Rolodex.ConfirmUpdate | hw2/src/update.c:138-143 | the entry is replaced and, if the flag is set, taken out and inserted again, in a list that may be unsorted meanwhile |
| RoloSort.ConfirmSortedExact | hw2/src/update.c:138-143 | the list is sorted after a confirmed update if and only if the flag was set or the new name fits where it is; exactly one element has changed |
| RoloUpdate.EditEntry | hw2/src/update.c:43-225 | the rounds of a session: each field of the copy is what the last edit that gave it a value says, or the old one, with a new time stamp; the name-changed flag is set if and only if, of the basic fields chosen, the name was chosen last |
| RoloUpdate.EditedFieldIs | hw2/src/update.c:172-180 | an edited field has the text of the last edit that gives it one, and otherwise keeps its own |
| RoloUpdate.RoloUpdateMode | hw2/src/update.c:75-234 | a confirmed session that gave some value replaces the entry and moves it by the flag; any other leaves list and entry alone |
| RoloUpdate.UpdateSortedExact | hw2/src/update.c:166-205 | a session keeps every sorted list sorted if and only if no edit gave the name a value, or the name was the last basic field chosen |
| RoloList.Rolodex.FindAllMatches | hw2/src/search.c:196-227 | the flags are set on exactly the entries whose field contains the search string ignoring case; the result is their number and the first match the earliest of them |
| RoloReader.ReadRolodex | hw2/src/io.c:67-145 | the in-place reader fails exactly when it would leave the buffer; otherwise its pointers, into the buffer it has changed, are the C strings of the fields of the file |
| RoloFile.EntryLayout | hw2/src/io.c:165-189 | an entry in the file, character for character: eight lines, one line for each extra field, an empty line |
| RoloFile.ReadIsWriteInverse | hw2/src/io.c:67-189 | a file reads as given entries if and only if they are storable - no newline in a field, no empty extra field - and the file is what writing them produces, byte for byte |
| RoloStore.Startup | hw2/src/rolo.c:328-335 | after a writable startup the list is sorted, and it holds the entries of the file, stably reordered if they were out of order |
| RoloStore.WriteRoloList | hw2/src/io.c:165-189 | walking the list writes the file text of its entries in order |
| RoloStore.LoadThenSave | hw2/src/io.c:67-189 | starting up on a well-formed file and saving a list that was not reordered reproduces the file byte for byte if and only if the file holds no NUL |
| RoloStore.SaveThenLoad | hw2/src/io.c:67-189 | saving a list whose fields hold no newline and no NUL and whose extra fields are nonempty, and starting up on the result, gives an equal list if and only if it was in order or is only read |
| Rio.RioReadN | hw5/src/csapp.c:533-552 | for every schedule without a hard error, min(n, remaining) bytes of the stream arrive in order, nothing is lost and nothing else in the buffer changes; a hard error is the only failure |
| Rio.RioWriteN | hw5/src/csapp.c:559-576 | for every schedule without a hard error exactly the n bytes are sent, in order; after one, a prefix of them |
| RioBuffered.RioBuffer.constructor | hw5/src/csapp.c:621-626 | nothing of the stream has been consumed |
| RioBuffered.RioBuffer.Refill | hw5/src/csapp.c:593-604 | filling the internal buffer changes nothing of what is still to be delivered; 0 only at the end of the stream |
| RioBuffered.RioBuffer.RioRead | hw5/src/csapp.c:589-614 | at least one byte, the next ones in order, unless the stream has ended |
| RioBuffered.RioBuffer.RioReadNB | hw5/src/csapp.c:633-649 | min(n, remaining) bytes in order, through the internal buffer and for every schedule |
| RioBuffered.RioBuffer.RioReadLineB | hw5/src/csapp.c:655-678 | the bytes up to the first newline, maxlen - 1 of them or the end of the stream, with a NUL behind them; no NUL when there was nothing left to read |
| RioLines.LineLengthIs | hw5/src/csapp.c:661-676 | a line ends with its first newline, at the limit or with the input, and there is only one such place |
| RioClient.ChunksArePrefix | hw5/src/csapp.c:633-678 | any mix of the two calls delivers, in order, a prefix of the stream |
| RioClient.MakeCalls | hw5/src/csapp.c:589-678 | any mix of calls on the buffered reader returns these chunks and leaves the rest, whatever the schedule |
| PacketProtocol.SwapFields | hw5/src/protocol.c:94-104 | each multi-byte field is turned round in place |
| Packets.SwappedTwice | hw5/src/protocol.c:94-104 | the two conversions undo each other |
| Packets.SwappedIsBigEndian | hw5/src/protocol.c:94-98 | what goes out is the fields of the header in network byte order (RFC 791, Appendix B) |
| Packets.StampedFields | hw5/src/protocol.c:87-92 | 32 bits of each clock value are kept, type and size untouched |
| PacketProtocol.SetTime | hw5/src/protocol.c:87-92 | the timestamp fields are set in place |
| PacketProtocol.SendPacket | hw5/src/protocol.c:29-55 | type 0 is refused with nothing sent; otherwise the stamped header and the payload go out, or a prefix of them after a hard error |
| PacketProtocol.RecvPacket | hw5/src/protocol.c:57-85 | result, header, payload and rest of the stream are those of Receive, for every schedule without a hard error |
| Packets.ReceiveSent | hw5/src/protocol.c:57-85 | a sent packet is received as it was, whatever the header buffer held and whatever follows |
| Packets.ReceiveIsWireInverse | hw5/src/protocol.c:57-85 | when a whole header comes, a packet is received if and only if it is sendable and its bytes are at the front of the stream |
| Packets.WholeHeaderExact | hw5/src/protocol.c:61-83 | by the bytes: a whole header gives a packet if and only if its type is not 0 and at least as many bytes follow as its two size bytes say |
| Packets.CutPayloadRefused | hw5/src/protocol.c:75-81 | a stream that ends inside a payload is refused, however much of the payload has come |
| Packets.CutStream | hw5/src/protocol.c:57-85 | of a stream that breaks off inside a payload exactly the packets before that one arrive, and then -1 |
| Packets.CloseNoticedExact | hw5/src/protocol.c:57-85 | a connection closed after whole packets gives -1 if and only if the last packet had a payload; otherwise packets that nobody sent go on arriving |
| PacketProtocol.ReceiveAll | hw5/src/protocol.c:57-85 | receiving with one header buffer until the first -1 delivers what ReceiveUpTo says, for every schedule without a hard error |
| Packets.ShortHeaderExact | hw5/src/protocol.c:61-83 | a stream that ends inside a header is received as a packet if and only if the header buffer then has a type and size bytes of zero |
| Packets.ClosedAfterEmptyPacket | hw5/src/protocol.c:61-83 | reusing the header after a packet without payload, a closed connection is received as that packet with its timestamp turned round |
| Packets.WiresInjective | hw5/src/protocol.c:29-55 | different sequences of packets have different bytes |
| PacketProtocol.Conversation | hw5/src/protocol.c:29-85 | any sequence of packets of nonzero type arrives as it was sent, with types, sizes, send times and payloads, for every way in which both ends split and interrupt their calls |

## Left out

- TransplantDecoder.DecodeDirConfined: says nothing of permissions, symbolic links or the file system's own limits on names and paths; a directory is taken to be writable whatever its mode.
- Clobber mode and, for the round trip, targets that already hold entries.
- Deserializers.Deserializer.DeserializeDirectory: stops at the point where a write would leave `name_buf` or `path_buf`; a flag records that it would. What the program does after such a write is not modelled.
- TransplantConfinement.FollowersMissing: modes of more than 16 bits, which stat does not report.
- Serializers.Serializer.SerializeDirectory: the tree does not change while it is read, every entry is a regular file or a directory, and stat and open succeed.
- PathBuffers.PathBuffer.constructor: `path_init`'s refusal of names too long for the buffer.
- Characters of the task parser are those of the C locale.
- JobTables.JobTable.JobCancel: whether `killpg` succeeds is a choice of the environment, also for a job that has never started and has no process group; the jobs that remain after `jobs_fini` are those of JobEffects.FinishEffect.
- JobTables.JobTable.ExecuteJob: the child side (pipes, redirections, exec) works on a copy of the table; a failing `fork` gives the pid -1.
- JobTables.JobTable.TerminateHandler: the handler runs between commands, not in the middle of one.
- RoloList.Rolodex.FindAllMatches: searching user-defined fields, which cuts the field at its colon for a moment.
- RoloUpdate.EditEntry: the user-defined fields are after an edit what the edit says. The program's copy of an entry loses the pointer to them (hw2/src/update.c:69); what a session does with an entry that has some is not modelled.
- RoloReader.ReadRolodex: it delivers the pointers of all entries and RoloStore.LoadList then builds the list, where the program does both in one loop.
- RoloStore.Startup: saving the reordered list to disk, warnings, and the exit when the file cannot be read.
- Rio.RioReadN: a schedule interrupts finitely often; sizes stay within `ssize_t` and `int`.
- RioBuffered.RioBuffer.RioReadLineB: its loop and its final NUL are methods of their own, counting characters taken where the program's counter is one higher.
- PacketProtocol.RecvPacket: after a hard error only the result is stated.
- Menus, terminal and help display, lock files, argument parsing and option handling: user interface.
- hw3: the allocator functions are stubs.
- hw5 server, trader, client registry and exchange: locking, sockets and code that is not part of this model.
- Memory management, failing allocation, clocks, debug output and the error wrappers of csapp.c.
