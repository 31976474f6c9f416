# Symbol renaming of yuv-sys and header merge of livekit-api

This project models two algorithms of the LiveKit Rust SDK and proves what they promise.

**The build script of `yuv-sys`** compiles its own copy of libyuv next to the one inside
libwebrtc, so it gives every public symbol a new name. It clones the source tree once,
then runs a list of word-boundary replacements over the text of every header and source,
all files in parallel, and finally allowlists the new names for the binding generator.

**The request builder of `livekit-api`** merges a header map into the headers of a
request with a loop that remembers the entry of the last named item.

## How the model is built

| file | holds |
|---|---|
| `Words.dfy` | word characters; the split of a text into maximal word and separator runs, and its uniqueness |
| `Rewriting.dfy` | replacement of sub-sequences: one pattern, a list of rules, one simultaneous pass; overlaps; the reversed rules |
| `Scanner.dfy` | the scan for leftmost, non-overlapping matches between word boundaries, and its refinement to runs |
| `Rules.dfy` | reading the lines of the list; the loop over the list for one text |
| `RenameLaws.dfy` | laws for lists of names of any shape, `##`-pasted ones included |
| `WordLaws.dfy` | laws for lists of plain words, with the exact condition for each |
| `UnitLaws.dfy` | the units of a text, which a list of any shape looks up once each; the length |
| `LinkLaws.dfy` | links between words of files, chains included |
| `WayBack.dfy` | the reverse list: the units of a renamed text, links between units of files, the round trip |
| `TwoLists.dfy` | when two lists rename a text to the same |
| `PastedLines.dfy` | the six `##` lines at the head of the list, and the list as a whole |
| `Bindings.dfy` | the allowlist loop and its agreement with the renaming |
| `Disks.dfy` | the file system as an object; the recursive copy |
| `Parallel.dfy` | the interleaved steps of the per-file tasks, and the parallel loop |
| `BuildScript.dfy` | clone once, list the files, rename what was cloned: one build |
| `Builds.dfy` | runs of any number of builds |
| `Headers.dfy` | header maps, their flattened form, the merge loop and the builder |
| `Wrappers.dfy` | `Option` |

A *symbol* is a listed name: it starts and ends with a word character and holds no
character that is special to a regex or a replacement text. This covers every line of
`yuv_functions.txt`, the six names with `##` inside included. A *word* is a symbol of word
characters only. Which characters outside ASCII are word characters is left to an arbitrary
table. Repeated lines, of which the list has many, are allowed throughout.

The method `Parallel.RenameSymbols` lets any unfinished task take the next step, in an order
that is not determined. A file is written in two steps, emptied first and then filled, and a
write that fails may leave the first part of the text. A disk that is `faulty` may fail at any
operation; one that is not fails only where the operation has to. When one task has failed, the
others may go on until the loop fails. A build may also be killed while it copies, or while it
removes what a failed copy left. What the methods compute is stated by functions on values, and
the laws are lemmas about those functions.

## Where the code does less than one might expect

- A rule that pastes the prefix, as line 1 of the list does (`NAME##ToYRow_C` becomes
  `rs_##NAME##ToYRow_C`), finds its own name again in its result. It leaves the old name
  behind, and a second run prefixes it again: `PastedLines.PastingIsNotIdempotent` and
  `PastedLines.FirstRuleIsNotIdempotent`. `RenameLaws.ListCompleteIff` and
  `RenameLaws.ListIdempotentIff` say exactly which lists are free of this. Only the
  copy-once gate keeps a tree from being renamed twice.
- A build that stops after it has begun the copy and before the renaming is done can leave a
  work tree that every later build takes for finished: `Builds.InterruptionStays`.
  `Builds.RightIffLengths` says exactly when it is right, for every list that lengthens its
  names: when the paths are those of the source and each file has the length counted from its
  original. `Builds.RightForWholeList` and `Builds.RightForLines` are this for the shape of the
  list the build reads. `Builds.RightIffWhole` and `Builds.RightIffClean` are about other lists.
- The same gate skips the renaming when the list has changed since the copy, while the
  allowlist follows the new list. A line added since then does not reach the tree:
  `Builds.AddedLineIsSkipped`. `Builds.CurrentIffUnits` says exactly when the old work tree is
  right by the new list, for lists that agree on their `##` names and have any words;
  `Builds.CurrentForWholeList` is this for two versions of the list the build reads.
  `Builds.CurrentIff` is about words with chains.
- A `##` name is renamed as a whole, and its first word, where it stands alone, is not. Word by
  word such a line breaks the links between files: `PastedLines.PastedLineSplitsWords`. Told by
  the renamed texts unit by unit they are kept, exactly when `WayBack.UnitLinksKeptIff` says.
- The allowlist loop takes each line untrimmed and whole, so its entry is the new name
  exactly when the line has no white space: `Bindings.EntryIsNewNameIff`. The first line of
  the list has some: `Bindings.FirstLineIsNotAllowed`.
- A list is applied rule by rule, so a new name that is a listed name is renamed again by a
  later rule, and one of an earlier rule stays until the next run: `WordLaws.ForwardChain` and
  `WordLaws.BackwardChain`. `WordLaws.SequentialIsOnceIff`, `WordLaws.CompleteIff` and
  `WordLaws.IdempotentIff` give the exact conditions, told by the links of the list, for any
  list of words; `WordLaws.DistinctOnceIff`, `WordLaws.DistinctCompleteIff` and
  `WordLaws.DistinctIdempotentIff` simpler ones for a list that names each word once.

## Model

| member | source | states |
|---|---|---|
| Words.RunsOfJoin | yuv-sys/build.rs:60 | the split into maximal word and separator runs, on which word boundaries depend, is the inverse of joining: no other alternating sequence joins to the text |
| Words.AsciiWordChars | yuv-sys/build.rs:60 | inside ASCII, letters, digits and the underscore are word characters and nothing else is |
| Scanner.MatchBetween | yuv-sys/build.rs:60 | a name matches between two texts if and only if neither neighbour is a letter, a digit or an underscore |
| Scanner.FirstMatchReplaced | yuv-sys/build.rs:60-63 | what stands before the first match is kept, the match is replaced, and the scan goes on right behind it |
| Scanner.NoMatchKept | yuv-sys/build.rs:60-63 | where nothing matches any more, the rest is kept |
| Scanner.SymbolChars | yuv-sys/build.rs:60-61 | a listed name begins and ends with such a character and holds none that means something else in a regex or a replacement |
| Scanner.BorrowedChangesNothing | yuv-sys/build.rs:61-63 | assigning the replacement only when something matched leaves the same content as assigning it always |
| Scanner.ScanReplacesRuns | yuv-sys/build.rs:60-63 | for every text and every listed symbol, the leftmost non-overlapping word-boundary replacement is the replacement of the symbol's runs among the runs of the text |
| Scanner.FoundIffOccurs | yuv-sys/build.rs:60 | a symbol matches somewhere between word boundaries if and only if its runs follow each other in the text |
| Rules.ParseLine | yuv-sys/build.rs:46-58 | a line gives no rule if and only if it is blank; otherwise both names of its rule are non-empty and free of white space, so taking the first column never panics |
| Rules.ParseOneColumn | yuv-sys/build.rs:46-58 | one column, with any white space around it, is renamed to its prefixed form |
| Rules.ParseTwoColumns | yuv-sys/build.rs:51-58 | with two columns the second is the new name, and what follows is ignored |
| Rules.RenameContent | yuv-sys/build.rs:44-64 | the loop over the lines computes the rules of the list applied one after the other, blank lines skipped |
| RenameLaws.RenameRewritesRuns | yuv-sys/build.rs:45-64 | the whole loop, on characters, is the same loop on runs |
| RenameLaws.RenameIsOnePass | yuv-sys/build.rs:45-64 | rules whose patterns do not interfere act as one simultaneous pass over the text, `##` names and repeated lines included |
| RenameLaws.RenameReordered | yuv-sys/build.rs:45-64 | every reordering of an independent list renames every text to the same result |
| RenameLaws.NoNameLeft | yuv-sys/build.rs:54-63 | a listed name that no new name can overlap is nowhere found between boundaries after the loop |
| RenameLaws.RenameTwice | yuv-sys/build.rs:54-63 | when that holds for all names, renaming again changes nothing |
| RenameLaws.ListCompleteIff | yuv-sys/build.rs:54-63 | for a list of the shipped kind, `##` names and repeated lines included: a listed name is found in no renamed text if and only if the runs of no new name can overlap its runs |
| RenameLaws.ListIdempotentIff | yuv-sys/build.rs:54-63 | a second run of such a list changes no text if and only if that holds for every listed name |
| RenameLaws.OneRuleCompleteIff | yuv-sys/build.rs:54-63 | one rule leaves its old name in no text if and only if the runs of the new name cannot overlap those of the old |
| RenameLaws.OneRuleIdempotentIff | yuv-sys/build.rs:54-63 | one rule is idempotent on every text under exactly the same condition |
| WordLaws.RenameMapsWords | yuv-sys/build.rs:45-64 | a list of words renames every word of every text by itself, through the rules in order, and nothing else |
| WordLaws.SeparatorsStay | yuv-sys/build.rs:54-63 | the number and the kinds of the runs are kept, and every separator run stays as it is |
| WordLaws.WordsReordered | yuv-sys/build.rs:45-64 | a list of words whose new names are not listed gives every text the same result in every order of its lines |
| WordLaws.RenamedIsFinal | yuv-sys/build.rs:45-64 | the loop takes every word to the end of its chain, each line linked to the next line that lists its new name |
| WordLaws.SequentialIsOnceIff | yuv-sys/build.rs:45-64 | the sequential loop is one simultaneous substitution on every text if and only if the chain of each listed name ends with the new name of its first line; repeated lines included |
| WordLaws.NoChainIsOnce | yuv-sys/build.rs:45-64 | it is when no new name is the name of a later line |
| WordLaws.NoChainIffOrdered | yuv-sys/build.rs:45-64 | for words, that is exactly the order condition of the single pass |
| WordLaws.PastedThenWords | yuv-sys/yuv_functions.txt:1-8 | pasted names followed by words, the shape of the list, are one single pass when no listed word is a part of a pasted name |
| WordLaws.CompleteIff | yuv-sys/build.rs:54-63 | no listed name is a word of any renamed text if and only if no chain of a listed name ends with a listed name; repeated lines included |
| WordLaws.IdempotentIff | yuv-sys/build.rs:54-63 | a second run changes no text if and only if every chain of a listed name ends with a word whose own chain ends with it; repeated lines included |
| WordLaws.DistinctOnceIff | yuv-sys/build.rs:45-64 | when each word is named once, the loop is one simultaneous substitution if and only if no new name is the name of a later line that changes it |
| WordLaws.DistinctCompleteIff | yuv-sys/build.rs:54-63 | when each word is named once, no listed name is left in any text if and only if no new name is the name of its own line or an earlier one |
| WordLaws.DistinctIdempotentIff | yuv-sys/build.rs:54-63 | when each word is named once, a second run changes no text if and only if, for each name that its own or a later line gives, the chain of links from its line leads back to it |
| WordLaws.ForwardChain | yuv-sys/build.rs:45-64 | `a` to `b`, `b` to `c` is not one simultaneous substitution |
| WordLaws.BackwardChain | yuv-sys/build.rs:45-64 | `b` to `c`, `a` to `b` leaves a listed name, and a second run changes it |
| WordLaws.FreshIsComplete | yuv-sys/build.rs:54-63 | when no new name is listed, the list is free of chains, complete and idempotent |
| WordLaws.FreshIsSettled | yuv-sys/build.rs:54-63 | for words, a list whose new names are not listed is ordered, and no new name can overlap a listed one |
| WordLaws.PrefixedIsComplete | yuv-sys/build.rs:22 | with the default prefix this holds when no listed name is the prefix followed by a listed name |
| WordLaws.ListedAlone | yuv-sys/build.rs:45-64 | a listed word between other characters becomes the new name of its first line, and the texts around it are renamed as if it were not there |
| WordLaws.UnlistedAlone | yuv-sys/build.rs:45-64 | a word that is not listed stays as it is there, whatever listed name it has inside |
| WordLaws.NameInsideName | yuv-sys/yuv_functions.txt:19-20 | `Scale` is not replaced inside `NV12Scale` |
| UnitLaws.RenameUnits | yuv-sys/build.rs:45-64 | for a list of any shape, a text is its units joined, and the renamed text is those units looked up once each and joined |
| UnitLaws.FoundIffUnit | yuv-sys/build.rs:60 | a listed name stands between word boundaries if and only if it is one of the units |
| UnitLaws.RenameGrowth | yuv-sys/build.rs:54-63 | the length of a renamed text, told by the list and the units of the original |
| UnitLaws.NoGrowthNoChange | yuv-sys/build.rs:54-63 | when every new name is longer, a text that keeps its length is not changed at all |
| UnitLaws.RenameLength | yuv-sys/build.rs:22-58 | with the default prefix a text grows by three characters for each listed name found in it, `##` names included |
| LinkLaws.LinksKeptIff | yuv-sys/build.rs:43-63 | words of any two files are equal after the renaming exactly when they were equal before, if and only if no new name captures another word of the files; for every list of words without chains |
| LinkLaws.PrefixedLinksKeptIff | yuv-sys/build.rs:22-63 | with the default prefix, if and only if no listed word of the files stands beside its own prefixed form, unless that is renamed as well |
| LinkLaws.InjectiveKeepsLinks | yuv-sys/build.rs:43-63 | whatever chains a list of words has, links are kept when different names have different new names and no new name is a word of the files |
| WayBack.RenamedUnitsIff | yuv-sys/build.rs:45-64 | the units that the reverse list finds in a renamed text are those of the original, each looked up once, if and only if no new name of several runs stood among the units before; otherwise it finds fewer |
| WayBack.UnitLinksKeptIff | yuv-sys/build.rs:43-63 | for a list of any shape, the units found in any two renamed files are equal exactly when they were equal before, if and only if no new name of several runs stood in the files and no new name captures another unit of them |
| WayBack.RoundTripIff | yuv-sys/build.rs:54-63 | for a list of any shape whose new names are longer or overlap no listed name, replacing each new name by its old name restores a text character for character if and only if no new name stood in it on units that the list leaves alone |
| WayBack.SettledRoundTripIff | yuv-sys/build.rs:54-63 | when no new name can overlap a listed one, if and only if no new name was found in it |
| WayBack.WordsRoundTripIff | yuv-sys/build.rs:54-63 | for words, if and only if no new name was a word of it |
| TwoLists.SameRenameIff | yuv-sys/build.rs:45-64 | two lists that agree on their pasted names rename a text to the same if and only if they look up each of its units alike |
| PastedLines.PastingIsNotIdempotent | yuv-sys/yuv_functions.txt:1-4 | a rule that pastes the prefix keeps its old name in its result and prefixes it once more on each run |
| PastedLines.FirstRuleIsNotIdempotent | yuv-sys/yuv_functions.txt:1 | the first line of the list is such a rule |
| PastedLines.PastedComesBack | yuv-sys/yuv_functions.txt:1-4 | a pasted new name that stood in a text already is restored by the reverse rule all the same |
| PastedLines.LineIsParsed | yuv-sys/yuv_functions.txt:1-6 | the six lines are read as the six rules below |
| PastedLines.WholeListParsed | yuv-sys/yuv_functions.txt:1-2337 | the six lines followed by bare words are read as the six rules and one prefixing rule for each word |
| PastedLines.PastedAreConsistent | yuv-sys/yuv_functions.txt:1-6 | the six `##` lines do not interfere, and none of their names can overlap itself |
| PastedLines.UndoPastedAreConsistent | yuv-sys/yuv_functions.txt:1-6 | neither do the reverse lines |
| PastedLines.WholeListIsOrdered | yuv-sys/yuv_functions.txt:1-2337 | the six lines followed by words without chains, none of them a part of a `##` name, are one single pass, and lengthen every name when the words do |
| PastedLines.WholeListIsWellBehaved | yuv-sys/yuv_functions.txt:1-2337 | when repeated words repeat the whole line, such a list meets the conditions of `RenameLaws.ListCompleteIff` |
| PastedLines.WholeListGrows | yuv-sys/yuv_functions.txt:1-2337 | when its words become longer, no name of such a list keeps its form or gets fewer runs |
| PastedLines.WholeListIsReversible | yuv-sys/yuv_functions.txt:1-2337 | when its words have different new names, none of them listed or a part of a `##` name, it meets those of the laws in `WayBack` |
| PastedLines.PastedLineSplitsWords | yuv-sys/yuv_functions.txt:1-6 | each of the six lines breaks a link between words: it renames its first word inside the name and not elsewhere |
| Bindings.AllowList | yuv-sys/build.rs:241-244 | the loop collects the prefixed lines, untrimmed and in order |
| Bindings.EntryIsNewNameIff | yuv-sys/build.rs:52-58 | the allowlist entry of a line is its new name if and only if the line has no white space |
| Bindings.FirstLineIsNotAllowed | yuv-sys/yuv_functions.txt:1 | the first line has two columns, and its allowlist entry is not its new name |
| Bindings.AllowedIff | yuv-sys/build.rs:241-244 | a word of a renamed header is allowlisted if and only if it replaced a listed name or was a new name already |
| Disks.Disk.CopyDir | yuv-sys/build.rs:70-81 | the copy lays the source over the destination, path by path; without faults it succeeds if and only if no file and folder clash; a failure loses nothing outside the destination, and leaves below it what was there or the first part of what the source has |
| Disks.CopiedBelow | yuv-sys/build.rs:71-79 | after a copy, every path below the destination has what the source has there, and where the source has nothing, what it had before |
| Disks.CopiedBeside | yuv-sys/build.rs:71-79 | every other path is as before, but for new folders on the way to the destination |
| Disks.CanCopyIff | yuv-sys/build.rs:71-79 | a copy can succeed if and only if the source is a folder, no file is on the way, and no file and folder stand in each other's place |
| Disks.BegunMeans | yuv-sys/build.rs:70-81 | a stopped copy has lost no path, and holds first parts of files of the source |
| Disks.FolderStep | yuv-sys/build.rs:74-75 | the copy of one sub-directory adds exactly that child to what has been copied |
| Disks.ChildCanCopy | yuv-sys/build.rs:74-75 | a sub-directory without clashes can be copied at any point of the loop |
| BuildScript.CopyOfAbsent | yuv-sys/build.rs:70-81 | a copy to an absent destination equals the source, which stays as it was |
| BuildScript.CanClone | yuv-sys/build.rs:71 | the source can be cloned whenever no file is on the way to the work tree, also when folders on the way are missing |
| BuildScript.CloneIfNeeded | yuv-sys/build.rs:83-94 | an existing work tree is left alone; otherwise it becomes the source tree, or, when the copy fails, it is removed and the disk is as before; a build killed on the way leaves a part of the copy |
| BuildScript.CleanedUp | yuv-sys/build.rs:88-91 | removing what a failed copy left restores the disk exactly |
| BuildScript.ListFiles | yuv-sys/build.rs:139-149 | the listing holds exactly the entries named by a base, a dot and the extension, each once; without faults it fails if and only if the directory is missing or an entry has no dot behind its first character |
| BuildScript.NoExtension | yuv-sys/build.rs:142-148 | a name has no extension if and only if it has no dot behind its first character |
| BuildScript.ExtensionOf | yuv-sys/build.rs:142-148 | the extension is what follows the last dot, and a leading dot starts none |
| BuildScript.TargetIff | yuv-sys/build.rs:131-149 | the files that are renamed are `include/libyuv/*.h` and `source/*.cc`, with a non-empty base |
| Parallel.InvStep | yuv-sys/build.rs:43-67 | every step of every task keeps each file untouched, emptied or completely renamed, as its task says, and all other paths as they were |
| Parallel.InvStop | yuv-sys/build.rs:43-67 | a task that fails leaves its file as it was or cut, and the others where they stood |
| Parallel.AlwaysMidway | yuv-sys/build.rs:43-67 | in every such state each path is as before or, if listed, holds the first part of its renamed text; and all of it when no task is inside a write |
| Parallel.FeasibleIff | yuv-sys/build.rs:43-67 | the schedules are exactly the sequences that name each file up to four times, in any order |
| Parallel.EveryInterleaving | yuv-sys/build.rs:43-67 | for every such sequence: at every moment each path is as before or, if listed, holds the first part of its renamed text, and all of it when no task is inside a write; unfinished tasks can go on; and after exactly four steps a file the disk is the sequential result |
| Parallel.AllMidwayMeans | yuv-sys/build.rs:43-67 | no path is lost or added, folders and other files stay, and a listed file holds its old text or a first part of the renamed one |
| Parallel.RenameSymbols | yuv-sys/build.rs:38-68 | whatever the order of the steps, on success exactly the listed files are renamed; when tasks fail, however far the others go on, each path is as before or, if listed, holds the first part of its renamed text |
| BuildScript.Build | yuv-sys/build.rs:126-156 | one build leaves an existing work tree alone, or makes it the renamed copy, or stops with a cleaned-up, partly copied or partly renamed one; on a sound disk it is never stopped; the disk stays well formed |
| BuildScript.SoundWhen | yuv-sys/build.rs:126-156 | a disk is sound when the source has its directories of headers and sources, every entry of them has a dot behind its first character, their headers and sources are files, and no file is on the way to the work tree |
| BuildScript.BuiltMeans | yuv-sys/build.rs:83-156 | after a build that gets through, the work tree has the paths of the source, renamed texts in `include/libyuv/*.h` and `source/*.cc`, and everything else as it was |
| BuildScript.BuildKeepsOthers | yuv-sys/build.rs:83-156 | whatever comes of a build, all other paths are as before, but for new folders on the way to the work tree |
| BuildScript.InterruptedMeans | yuv-sys/build.rs:83-156 | after an interrupted renaming each path holds what the source has, or a target the first part of its renamed text |
| BuildScript.KilledMeans | yuv-sys/build.rs:83-94 | after a killed copy the work tree holds only paths of the source, and first parts of its files |
| BuildScript.AfterRename | yuv-sys/build.rs:139-156 | renaming the listed files of the disk is renaming the targets of the work tree and nothing else |
| Builds.IsRunMore | yuv-sys/build.rs:83-156 | a run of builds can go on with any build that finds no work tree, or the one the last build left |
| Builds.WorkTreeHasAMaker | yuv-sys/build.rs:137-156 | after any run of builds the work tree is absent or what one earlier build left; the builds since then changed nothing |
| Builds.RightIffLengths | yuv-sys/build.rs:83-156 | wherever the build that made it was stopped, the work tree is the renamed copy of the source at clone time if and only if it has the paths of the source and each file the length counted from its original; for every ordered list that lengthens its names |
| Builds.RightForWholeList | yuv-sys/build.rs:83-156 | this holds for the six `##` lines followed by words |
| Builds.RightForLines | yuv-sys/build.rs:83-156 | this holds for the list as lines: the six of its head, followed by bare words |
| Builds.RightMeans | yuv-sys/build.rs:83-156 | a right work tree has the paths of the source, renamed texts in `include/libyuv/*.h` and `source/*.cc`, and everything else as it was |
| Builds.RightIffWhole | yuv-sys/build.rs:83-156 | for lists that may keep or shorten names but overlap none: if and only if also no header or source holds a listed name |
| Builds.RightIffClean | yuv-sys/build.rs:83-156 | for those lists, after a build not stopped inside a write or the copy, this alone decides, without a look at the source |
| Builds.CurrentIff | yuv-sys/build.rs:84-86 | a finished work tree is right by the list of a later build that skips if and only if both lists lead every word of its originals to the same name |
| Builds.CurrentIffUnits | yuv-sys/build.rs:84-86 | for lists of any shape that agree on their pasted names: if and only if both look up every unit of its originals alike |
| Builds.CurrentForWholeList | yuv-sys/build.rs:84-86 | this holds for two versions of the list: the six `##` lines, followed by words that may have been added, dropped, changed or moved |
| Builds.CurrentWithOneMore | yuv-sys/build.rs:84-86 | for a list of any shape that got one more line, if and only if the added name is found in no header or source of the work tree |
| Builds.AddedLineIsSkipped | yuv-sys/build.rs:84-86 | a line that is added after a build, with a name found in the work tree, makes the next build skip a tree that is not right by its list |
| Builds.RepeatedBuilds | yuv-sys/build.rs:83-156 | in runs without killed copies and interrupted renames it always is, and every file has been renamed once |
| Builds.InterruptionStays | yuv-sys/build.rs:84-86 | after a build interrupted before the renaming, the next build leaves the work tree wrong |
| Builds.NoListedNameInWorkTree | yuv-sys/build.rs:43-67 | however many builds ran, no header or source of the work tree holds a settled listed name |
| Builds.UnitsInWorkTree | yuv-sys/build.rs:43-67 | for a list of any shape, every header or source of the work tree is its original with each unit looked up once |
| Builds.LinksInWorkTree | yuv-sys/build.rs:43-67 | runs of any two files of the work tree agree exactly when they agreed in the source tree, for lists of words without chains that capture no word and with chains that give names of their own |
| Builds.UnitLinksInWorkTree | yuv-sys/build.rs:43-67 | for a list of any shape, units of any two files of the work tree agree exactly when they agreed in the source tree |
| Headers.MergeIsOverride | livekit-api/src/http_client.rs:116-141 | for every starting map and every flattening, incoming names get exactly their incoming values in order, other names keep theirs, and the unreachable arm is not taken |
| Headers.FlatteningGrows | livekit-api/src/http_client.rs:116-119 | the items of a map may come in every order of its names, the first value of each with the name and the others without |
| Headers.CursorIsSafe | livekit-api/src/http_client.rs:119-138 | after every prefix of the stream the cursor is the latest name, which holds the consumed part of its group, and appends have touched nothing else |
| Headers.OrderDoesNotMatter | livekit-api/src/http_client.rs:120-139 | two flattenings of one map merge to the same headers |
| Headers.MergesCompose | livekit-api/src/http_client.rs:116-141 | merging one map and then another is merging the override of the first by the second |
| Headers.MergeAgain | livekit-api/src/http_client.rs:116-141 | merging a map twice is merging it once |
| Headers.MergeIntoEmpty | livekit-api/src/http_client.rs:100-106 | merging into a new request rebuilds the incoming map |
| Headers.ValuesAreConserved | livekit-api/src/http_client.rs:120-139 | the values after the merge are the incoming ones and those of the names not coming in, by count, and no name is left without a value |
| Headers.RequestBuilder.Headers | livekit-api/src/http_client.rs:116-141 | the loop with its cursor leaves the override of the old headers by the incoming ones |
| Headers.RequestBuilder.Body | livekit-api/src/http_client.rs:143-146 | the body is replaced and the headers are untouched |
| Headers.RequestBuilder.constructor | livekit-api/src/http_client.rs:100-107 | a new request has no headers and an empty body |

## Left out

- Regex and replacement syntax: listed names and new names stand for themselves; the list has no others.
- Links in the file system, permissions, and file contents that are not valid text.
- Disks.Disk.CopyDir: is about a destination that is not inside the source and takes nothing of the source for its own place in it; the build has the two apart. Otherwise the copy would write to what it still reads.
- RenameLaws.RenameIsOnePass: its condition is sufficient; for lists of words `WordLaws.SequentialIsOnceIff` states the exact one.
- RenameLaws.NoNameLeft: is the half that needs the order of the rules alone; `RenameLaws.ListCompleteIff` states both.
- RenameLaws.RenameTwice: is the half that needs the order of the rules alone; `RenameLaws.ListIdempotentIff` states both.
- RenameLaws.ListCompleteIff: is about names whose runs have no proper prefix that is also a suffix, as all listed names are (`PastedLines.WholeListIsWellBehaved`), and about rules whose patterns cannot overlap; the same name has the same new name on every line.
- RenameLaws.ListIdempotentIff: takes, beside that, no new name of fewer runs than its name and none equal to it; a prefix never makes such a name.
- RenameLaws.OneRuleCompleteIff: is about names whose runs have no proper prefix that is also a suffix, as all listed names are.
- RenameLaws.OneRuleIdempotentIff: is about the same names.
- WordLaws.DistinctCompleteIff: is about lists that name each word once; `WordLaws.CompleteIff` covers repeated lines.
- WordLaws.DistinctOnceIff: is about such lists; `WordLaws.SequentialIsOnceIff` covers repeated lines.
- WordLaws.DistinctIdempotentIff: is about such lists; `WordLaws.IdempotentIff` covers repeated lines.
- LinkLaws.LinksKeptIff: is about lists of words; with a `##` name the links between words are broken, and `WayBack.UnitLinksKeptIff` is about units.
- Builds.LinksInWorkTree: is about lists of words for the same reason; `Builds.UnitLinksInWorkTree` is about lists of any shape.
- WayBack.RoundTripIff: is about lists that lengthen every name or overlap none; otherwise a shorter and a longer new name could make up for each other.
- WayBack.SettledRoundTripIff: is about lists that overlap no name; `PastedLines.PastedComesBack` shows that a pasted new name may stand in the text.
- LinkLaws.InjectiveKeepsLinks: gives a sufficient condition on lists with chains; it is exact for lists without, in `LinkLaws.LinksKeptIff`.
- Builds.RightIffLengths: is about lists that lengthen every name; `Builds.RightIffWhole` is about others.
- Builds.RightIffWhole: is about lists in which no new name can overlap a listed one; for a build killed in the copy also about lists that shorten no name, because a part of an original can be as long as the shorter renamed text.
- Builds.RightIffClean: leaves out trees that were cut in the middle of a write or of the copy; `Builds.RightIffLengths` and `Builds.RightIffWhole` cover them.
- Builds.CurrentIff: is about lists of words; `Builds.CurrentIffUnits` is about lists of any shape without chains.
- Builds.CurrentIffUnits: is about lists that agree on their pasted names; `Builds.CurrentWithOneMore` is about any line added at the end.
- BuildScript.Build: takes it that the disk is well formed, every entry standing in a folder, and that the source and the work tree are apart.
- The loading of `yuv_functions.txt` and its split into lines; the list is given as its lines.
- The split into common and architecture-specific sources, compiler probes and flags, JPEG detection and the output of the binding generator.
- Headers.RequestBuilder.Headers: leaves out the panic of a builder that already carries an error and the size limit of a header map, which belong to the HTTP library.
- Sending the request and reading the response.
- The rest of the repository: wrappers around libwebrtc, generated protocol tables, token and webhook code around cryptographic libraries.
