# Verification of the common MSM board tools

A Dafny model of the five programs of the repository that hold real algorithms, with proofs of what they keep
and compute.

* **The QCDT image builder** (`common/dtbtool/dtbtool.c`). `Text`, `TagLines` and `TagMeaning` cover `strtok_r`, the
  grouping of tag tokens and the cross product of the parsed lists; `ChipIds` and `ChipList` the sorted, duplicate-free,
  doubly linked list on the heap; `DtbScan` the directory scan; `QcdtLayout` the image as a function and what
  reading it back gives; `QcdtWriter` the two passes over the heap list, writing through a `write(2)` that may
  take fewer bytes than asked, or fail, at every call. The main result: an image that is kept is exact, whatever
  `write` did and even if files changed after the scan, and each table entry leads to its master's file.
* **The radio update generator** (`common/releasetools.py`). `Edify` is an interpreter for the updater commands
  on a device (places, what is mounted at `/firmware`, the boot stages); `RadioScript` the generators;
  `RadioInstall`, `RadioPhases` and `RadioPlan` what the install script does at every point of the script;
  `RadioVerify` what the verification script decides; `RadioPrepare` the preparation of the update list and its
  classes; `RadioGenerate` one run of all generators. The main results hold for every order in which Python walks its dictionaries: the update aborts only
  in its verification, and exactly when a place to be patched holds neither source nor target or the cache is
  too small; otherwise every image arrives; power loss at any command leaves every place old or new and one copy
  of the boot images whole, and running the package again finishes the job.
* **The power HAL** (`common/power`). `HintList` is the pointer list of held locks; `PerfLocks` the books it
  keeps over runs; `PowerHal` the display, slack and video code of `power.c` with the override of
  `power-8974.c`; `PowerRuns`, `BoostRuns`, `VideoRuns` and `SlackRuns` what
  holds of display locks, boost locks, video locks and slack times over all event sequences.
* **The metadata parser** (`common/power/metadata-parser.c`): `Metadata`.
* **The bootloader meta image packer** (`common/meta_image/make_image_tool.py`): `MetaImage`.

Code that works on pointers or updates fields is modelled by classes and methods with loops; each method is
proved against a function on values, and the properties are lemmas about these functions.

Four promises do not hold in general; the model keeps the code as it is, shows inputs that break them, and gives
the exact condition.

* Slack times are not always restored. `SlackRuns.StaysTenfold` is a run in which every write succeeds and which
  ends with the display on and a node at ten times its value, because the last display-on is handled by the
  override, or finds another governor or none. `OnRestoresIff` proves that, as long as no node
  was left scaled before, a display-on whose writes succeed restores all nodes if and only if none is scaled or
  `power.c` processes the call under msm-dcvs; `RestoredIffReached` proves, for whole runs with failing reads and
  writes, that every display-on restores all nodes if and only if none meets a scaled node that it cannot write.
  `SlackRuns.TenfoldTwice` is a run in which a node ends at a hundred times its value; `TenfoldStep` and
  `TenfoldAtMost` prove that nodes stay at their values or ten times these if and only if no processed
  display-off, coming after a display-on, takes a tenfold value for the original one and writes it.
* A display lock is not always held while the display is off. `PowerRuns.StaleFlag` is a run that ends with
  display off under `ondemand`, the override's flag set, and no lock. `DisplayLockStep` gives the exact number of
  display locks after any display call, and `LockFollowsDisplay` proves that through a run a lock is held exactly
  while the display is off if and only if every call that switches it off finds the flag of the code in charge
  clear and gets a lock, and every call that switches it on is handled under `ondemand` or `interactive` with one
  lock to release. A steady governor is enough (`OneLockWhileOff`).
* A video hint that stops does not always give its lock back. `VideoRuns.VideoStopReleases` proves that it does if
  and only if the stop finds the `interactive` governor, or is an encode hint and finds `ondemand`; under any other
  governor, or without a reading, no stop does. `VideoLocksOfRun` gives the locks held under a video id after any
  run, and `LocksFollowHints` proves that they follow the starts and stops of that id through a run if and only if
  every start gets its lock and every stop of something started is acted upon.
* Display locks can outnumber their flags when the library can acquire but not release, which `utils.c` allows:
  `PowerRuns.LocksPileUp` is a run that ends with two locks and one flag. `FlagsCoverIffReleasable` proves that the
  flags cover the locks through all runs if and only if the library cannot acquire or can release.

The comment above `chip_add` names chipset, platform and revision as the sort key; the code also compares the
subtype between platform and revision, and the model follows the code. In `main` of `dtbtool.c` the test of
`out_fd` can never be true; the model needs no such test, because a file that could not be opened loses every
byte and the closing comparison of byte counts removes the image.

## Model

| member | source | states |
|---|---|---|
| Text.Tokenize | common/dtbtool/dtbtool.c:320-321 | repeated `strtok_r` calls deliver all maximal runs of non-delimiters, in order, and then stop |
| Text.TokensAreNonEmptyPieces | common/power/metadata-parser.c:43-47 | for one delimiter these tokens are exactly the non-empty pieces between delimiters |
| Text.AfterIsFirst | common/dtbtool/dtbtool.c:313 | `strstr` gives the text behind the first occurrence of the tag, and nothing exactly when there is none |
| Text.LastSegmentIsLastPiece | common/releasetools.py:295 | the part after the last slash is the last piece of splitting at slashes |
| TagLines.ReadGroups | common/dtbtool/dtbtool.c:380-418 | the token loops end and deliver the groups of n numbers before the closing token |
| TagLines.GroupsTileTheNumbers | common/dtbtool/dtbtool.c:317-370 | groups have n numbers each, follow one another from the start, and drop only a partial rest |
| TagMeaning.NumbersAre | common/dtbtool/dtbtool.c:324-336 | the numbers are the tokens before the first one that starts with `>`, or all of them |
| TagMeaning.GroupAt | common/dtbtool/dtbtool.c:320-341 | group k is the numbers n * k to n * k + n - 1, and exists exactly when there are that many |
| TagMeaning.GroupsOfLines | common/dtbtool/dtbtool.c:374-511 | the groups of a file are exactly those of its lines with the tag, split at blanks and tabs behind its first occurrence |
| TagMeaning.GroupsInOrder | common/dtbtool/dtbtool.c:374-511 | groups come line after line |
| TagLines.GetVersionInfo | common/dtbtool/dtbtool.c:682-691 | version 3 if any line has the pmic tag, else 2 if any has the board tag, else 1 |
| TagMeaning.VersionMeans | common/dtbtool/dtbtool.c:682-690 | version 3 if and only if some line holds `qcom,pmic-id = <`, at least 2 if and only if one holds that or `qcom,board-id = <` |
| TagLines.ChainIsCrossProduct | common/dtbtool/dtbtool.c:532-600 | for versions 2 and 3 every combination occurs as often as its parts, and the first of each comes first |
| TagMeaning.ChainHasExactly | common/dtbtool/dtbtool.c:412-600 | an id is in the chain exactly when some msm line has its chipset and revision as a pair, some board line its platform and subtype, and some pmic line its four pmics, which are zero for version 2 |
| TagMeaning.PushedAt | common/dtbtool/dtbtool.c:345-352 | behind the head the chain runs backwards |
| TagMeaning.RowAt | common/dtbtool/dtbtool.c:541-568 | a combination takes chipset and revision, platform and subtype, and the four pmics from its parts |
| TagMeaning.RowsAt | common/dtbtool/dtbtool.c:538-600 | board ids are walked outside, pmic ids inside |
| TagMeaning.ProductAt | common/dtbtool/dtbtool.c:536-603 | msm ids are walked outermost |
| TagLines.ChainIsTriples | common/dtbtool/dtbtool.c:313-370 | a version 1 chain is a permutation of the triples of the first tag line, headed by the first |
| TagMeaning.FirstTagMeans | common/dtbtool/dtbtool.c:313-342 | the line that a version 1 file is read from is the first with the msm tag |
| TagMeaning.TripleAt | common/dtbtool/dtbtool.c:320-365 | the k-th version 1 id has the numbers 3k, 3k + 1 and 3k + 2 as chipset, platform and revision, and zero elsewhere |
| DtbScan.GetChipInfo | common/dtbtool/dtbtool.c:256-638 | the heap chain is properly linked, all nodes share the head as master, and carry the ids above |
| DtbScan.LinkProduct | common/dtbtool/dtbtool.c:532-600 | the nested loops build the chain of the whole product by linking each node behind the head |
| ChipIds.OrderIsNumeric | common/dtbtool/dtbtool.c:192-198 | the nested comparison is the numeric order of the ids' chipset, platform, subtype and revision |
| ChipList.List.Add | common/dtbtool/dtbtool.c:179-232 | a node is refused exactly when its id is present, else linked in at its place; links, uniqueness and the order by chipset, platform, subtype and revision are kept |
| ChipList.ListInFieldOrder | common/dtbtool/dtbtool.c:179-232 | the nodes are ordered by chipset, platform, subtype and revision, and no two share all eight fields |
| ChipIds.ListOfOffers | common/dtbtool/dtbtool.c:179-232 | the same for the list after any inserts |
| ChipIds.OffersAreListed | common/dtbtool/dtbtool.c:213-222 | the first offer of each id is in the list |
| ChipIds.SameFieldsInOrderOfOffer | common/dtbtool/dtbtool.c:192-209 | ids that agree in those four fields keep the order of their inserts |
| ChipIds.AddAllIsStableSort | common/dtbtool/dtbtool.c:180-232 | any sequence of inserts yields a sorted permutation of the accepted ones that keeps the order of equal keys |
| ChipIds.StableSortIsUnique | common/dtbtool/dtbtool.c:179-232 | order and per-key subsequences determine the list, so it is the stable sort |
| ChipIds.AcceptedAreFirstOffers | common/dtbtool/dtbtool.c:213-222 | an insert is accepted exactly when it is the first to bring its id |
| DtbScan.ScanDirectory | common/dtbtool/dtbtool.c:760-849 | the heap list, its masters, files and sizes are those of the scan as a value, and the count is the list length |
| DtbScan.ScanIsValid | common/dtbtool/dtbtool.c:825-846 | every node's master is in the list, is its own master, and has a file and a nonzero page-multiple size |
| DtbScan.ScanIsStableSort | common/dtbtool/dtbtool.c:825-846 | the list of a scan is the stable sort of the first offers of all ids, a file with a known head id offering none |
| DtbScan.FirstFileWins | common/dtbtool/dtbtool.c:825-846 | scanning further files never changes the master of an id in the list nor that master's file |
| DtbScan.EntryCounts | common/dtbtool/dtbtool.c:763-815 | an entry counts exactly when it is a regular file with a longer name ending in `.dtb`, has ids and is not empty |
| DtbScan.EntryIsUsedOrIgnored | common/dtbtool/dtbtool.c:763-830 | any other entry might as well not be there, and the head id of a counting one is in the list at the end |
| DtbScan.SlotsComeFromFiles | common/dtbtool/dtbtool.c:808-846 | every slot was brought by a directory file, whose name its master carries with its size rounded up to the next page, a full page when aligned |
| QcdtLayout.ScanLayout | common/dtbtool/dtbtool.c:878-917 | offsets are page-aligned, inside the file, and equal exactly for entries with the same master |
| QcdtLayout.RegionsAreDisjoint | common/dtbtool/dtbtool.c:909-915 | the regions of distinct masters do not overlap |
| QcdtLayout.RegionsLeaveNoGap | common/dtbtool/dtbtool.c:909-915 | every position from the padded table end to the final expected size lies in some master's region |
| QcdtLayout.OffsetsFollowList | common/dtbtool/dtbtool.c:900-917 | the first region starts where the table ends, and regions come in the order in which the list first refers to their masters |
| QcdtLayout.TableIsClosed | common/dtbtool/dtbtool.c:889-924 | behind the table come four zero bytes and zeros up to the next page, where the regions start |
| QcdtLayout.ImageRoundTrip | common/dtbtool/dtbtool.c:872-958 | reading header and entry i of an image gives "QCDT", 3, the count, id, offset and size, and the bytes there are the master's content and zeros |
| QcdtLayout.EntryIsTenWords | common/dtbtool/dtbtool.c:900-917 | an entry is ten little-endian words: chipset, platform, subtype, revision, four pmics, offset, size |
| Bytes.LowByteFirst | common/dtbtool/dtbtool.c:900-917 | words are written low byte first |
| QcdtWriter.PlaceMaster | common/dtbtool/dtbtool.c:909-915 | with zero as "unassigned", a master gets the next free offset once and keeps it |
| QcdtWriter.WriteTable | common/dtbtool/dtbtool.c:900-917 | pass one asks for exactly the table of the layout and ends with its total size |
| QcdtWriter.WriteFiles | common/dtbtool/dtbtool.c:925-958 | pass two asks for each master's padded file once, and fails exactly when a file is gone or has another padded size |
| QcdtWriter.OutFile.Write | common/dtbtool/dtbtool.c:873-875 | the size_t counter equals bytes asked minus bytes lost, modulo 2^64, for every result of write |
| QcdtWriter.OutFile.CountsMatch | common/dtbtool/dtbtool.c:961-966 | the final comparison holds exactly when no byte was lost, and then the file is what was asked for |
| QcdtWriter.BuildImage | common/dtbtool/dtbtool.c:711-977 | a kept image is the image of the scan, and it is kept whenever no byte is lost and all files still have their padded sizes |
| QcdtWriter.KeptImageReadsBack | common/dtbtool/dtbtool.c:834-958 | entry i of a kept image leads to the file that brought its id's master, at an aligned offset and its tabled size |
| RadioScript.Script.InstallRawImage | common/releasetools.py:234-246 | a patch, an encrypted image or a plain image becomes the commands of its unit |
| RadioScript.UnitCommands | common/releasetools.py:234-246 | a patch is one command, an encrypted image goes through `/tmp` under its own name, any other is extracted |
| RadioScript.Script.InstallBootImages | common/releasetools.py:251-276 | main block, backup block or bare backup call, and finalize, over the same dictionary order |
| RadioScript.Script.InstallFwImages | common/releasetools.py:289-319 | firmware files with the mounts between them and the final unmount, cut destinations being the plain file's path |
| RadioScript.Script.InstallEnd | common/releasetools.py:322-333 | the install script is the non-empty phases in order |
| RadioScript.Script.VerifyEnd | common/releasetools.py:169-214 | the verification script, empty when no patch source has a size |
| RadioInstall.UnitInstalls | common/releasetools.py:234-246 | a unit's commands put its goal content in its place and touch nothing else but the temporary file |
| RadioInstall.UnitsCutShort | common/releasetools.py:255-283 | cut after any number of commands, each place of a run of units is as it was or as it should be |
| RadioPhases.BootRuns | common/releasetools.py:251-276 | both boot stages reach their targets where the stage proceeds, change nothing where it does not, and finalize comes last |
| RadioPhases.BootCutShort | common/releasetools.py:251-276 | at every point of the boot phase no backup has been touched or all main partitions are final |
| RadioPhases.FwIsAddressed | common/releasetools.py:296-307 | with a file's own partition mounted its commands address that file in that partition |
| RadioPhases.FwLoopRuns | common/releasetools.py:289-315 | every firmware file arrives in its own partition, which is the mounted one at each access |
| RadioPlan.InstallReachesTargets | common/releasetools.py:234-333 | the install script runs to its end, every image is in place, stages are in order, nothing is left mounted, nothing else changes |
| RadioPlan.PlannedPlaces | common/releasetools.py:251-310 | a boot image goes to its destination and its backup to the backup destination, a bin image to its destination, a firmware file to its place below |
| RadioPlan.EntriesArePlanned | common/releasetools.py:251-310 | every entry has its image in the plan, and a boot entry with a backup a second one |
| RadioPlan.FwPlace | common/releasetools.py:292-315 | a firmware file keeps its name without `.p` or `.enc`, in `/firmware/image` of a partition below `/dev` or in its destination directory |
| RadioPlan.InstallCutShort | common/releasetools.py:251-333 | power loss after any command leaves every place old or new and one copy of the boot images whole |
| RadioPlan.InstallCanRestart | common/releasetools.py:251-333 | after power loss at any command the install script run again reaches every target, whatever `boot_update` answers then |
| RadioVerify.FwChecksRun | common/releasetools.py:192-212 | each firmware check looks at its file in its own mounted partition, and the checks pass exactly when all are ready |
| RadioVerify.EveryPatchIsChecked | common/releasetools.py:169-310 | each patch that is applied has a check of the same place, target and source hash in the verification script |
| RadioVerify.VerifyDecides | common/releasetools.py:169-214 | verification passes exactly when every place to be patched holds source or target and the cache has room |
| RadioVerify.UpdateIsAllOrNothing | common/releasetools.py:169-333 | the update aborts exactly when its verification does, with nothing written, and otherwise every image arrives |
| RadioVerify.UpdateCanRestart | common/releasetools.py:169-333 | after power loss at any command of verification or installation, the package run again decides as before and brings every image |
| RadioPrepare.DestinationIgnoresEncryption | common/releasetools.py:62-79 | an encrypted image has the destinations of the plain one |
| RadioPrepare.DestinationsAreMapped | common/releasetools.py:62-79 | shipped as it is or encrypted, a file goes where its full name goes, else where the wildcard of its stem goes, else nowhere, and its backup where the name with `.bak` goes |
| RadioPrepare.PrepareUpdates | common/releasetools.py:128-162 | the loop fills update list, package and largest source as decided file by file |
| RadioPrepare.ShippedRight | common/releasetools.py:132-162 | a shipped file is named by what it is and leads to the target content; a skipped one has no destination or is unchanged |
| RadioPrepare.ShippedAs | common/releasetools.py:138-162 | a file is skipped exactly when the source has its content, and a patch exactly when the source has another content, the file is not encrypted and the patch is not too big, under the key that says so |
| RadioPrepare.PreparedIsWhatIsShipped | common/releasetools.py:132-162 | the update list is exactly the shipped files, no two under one key |
| RadioPrepare.LargestSource | common/releasetools.py:129-158 | the recorded size bounds all patch sources and is one of them unless zero |
| RadioPrepare.SplitFwTypes | common/releasetools.py:83-102 | one pass sorts the update list: names ending in `.mbn` are boot images, in `.bin` bin images, all others firmware, `.p` and `.enc` not counting |
| RadioPrepare.KindByName | common/releasetools.py:88-101 | the scan over the pieces from the right decides by what the name ends in once `.p` and `.enc` are off |
| RadioPrepare.ClassesPartition | common/releasetools.py:96-102 | the three dictionaries are disjoint, cover the update list and keep its entries |
| RadioPrepare.KindIgnoresShipping | common/releasetools.py:88-101 | an image has the same class shipped plain, encrypted or as a patch |
| RadioPrepare.KeysHaveDirectories | common/releasetools.py:155-162 | every key starts with a directory, which is why the leftward extension scan stops |
| RadioPrepare.EveryTargetFileIsCovered | common/releasetools.py:132-162 | each target file with a destination is planned with its content as goal, or the source already has it |
| RadioPrepare.RadioUpdate | common/releasetools.py:106-333 | from target files to device: abort in verification, with nothing written, exactly when a place is not ready or the cache too small, else every image in place |
| RadioGenerate.GenerateUpdate | common/releasetools.py:106-333 | one run of the generators, from target files and file map, emits exactly the update script of the plan of the prepared files, or nothing on an early return |
| HintList.MatchesAreOfOneId | common/power/hint-data.c:32-42 | the listed hints that compare equal to a search key are exactly the locks held under its id, newest first |
| HintList.KeysSeparate | common/power/hint-data.c:32-42 | two keys match the same listed hints when they compare equal, and share none otherwise |
| HintList.AddListNode | common/power/list.c:47-67 | the new node goes first with the head's comparison; without memory nothing changes |
| HintList.FindNode | common/power/list.c:126-145 | the newest node with the wanted id, or none |
| HintList.RemoveListNode | common/power/list.c:77-108 | exactly that node is unlinked and all others keep their order |
| HintList.HintTracker.PerformHintAction | common/power/utils.c:219-262 | the pointer code refines pushing on the list of held locks, with every failure of lock or memory |
| HintList.HintTracker.UndoHintAction | common/power/utils.c:264-298 | the pointer code refines releasing and dropping the newest lock of the id |
| PerfLocks.HandlesAreConserved | common/power/utils.c:219-298 | over any run, acquired handles are those held, released or leaked, with multiplicities |
| PerfLocks.PerformOutcome | common/power/utils.c:219-262 | a handle is acquired exactly when the library answers other than -1; it is then held in front, given back for lack of memory, or lost |
| PerfLocks.BalancedIffNothingLeaks | common/power/utils.c:246-255 | the books balance exactly when no untracked lock was acquired without a release entry point |
| PerfLocks.EachHandleOnce | common/power/utils.c:219-298 | a handle acquired once is either held once or was released once |
| PerfLocks.UndoPops | common/power/utils.c:264-298 | undo is last in, first out for its id and leaves other ids alone |
| PerfLocks.IdsAreIndependent | common/power/utils.c:219-298 | the locks held under an id are those that its own operations alone would leave |
| PowerHal.Hal.SetInteractiveOverride | common/power/power-8974.c:55-114 | the override's three flags, its locks and whether it handles the call |
| PowerHal.Hal.ScaleSlack | common/power/power.c:275-364 | save what can be read, then write ten times what is saved |
| PowerHal.Hal.RestoreSlack | common/power/power.c:381-429 | write back what is saved |
| PowerHal.Hal.SetInteractive | common/power/power.c:234-437 | the whole display call, override first, on the heap and on values |
| PowerHal.Hal.ProcessVideoEncodeHint | common/power/power.c:139-189 | the encode hint acquires or releases under the parsed id |
| PowerHal.Hal.ProcessVideoDecodeHint | common/power/power.c:85-137 | the decode hint does so too, except that a stop under ondemand does nothing |
| PowerRuns.FlagsCoverEveryRun | common/power/power-8974.c:55-114 | over any run of a library that can release what it acquires, the display locks never outnumber their flags |
| PowerRuns.LocksPileUp | common/power/utils.c:246-273 | for every library that acquires but cannot release, a run that ends with two display locks and one flag |
| PowerRuns.FlagsCoverIffReleasable | common/power/power-8974.c:55-114 | the flags cover the display locks through all runs exactly if the library cannot acquire or can release |
| PowerRuns.InitialLockOnce | common/power/power-8974.c:72-75 | the initial lock is released at most once in any run, for any library and any hints |
| PowerRuns.DisplayLockStep | common/power/power-8974.c:87-111 | the exact number of display locks and the two flags after any display call, whatever governor, library and memory answer |
| PowerRuns.LockFollowsDisplay | common/power/power.c:241-378 | over any run a display lock is held exactly while the display is off, if and only if every switch-off requests and gets one and every switch-on releases the only one |
| BoostRuns.BoostStep | common/power/power-8974.c:66-103 | the exact number of 0x0D00 locks, both boost flags and the count of initial releases after any display call |
| BoostRuns.BoostOfRun | common/power/power-8974.c:66-103 | both flags after any run from its events; the initial lock is released exactly with the first off |
| BoostRuns.BoostFollowsDisplay | common/power/power-8974.c:66-103 | through a run a 0x0D00 lock is held exactly while the display is on again after an off, if and only if every such on gets it and every later off can release it |
| PowerRuns.StaleFlag | common/power/power-8974.c:87-107 | with a changing governor the display can be off with the flag set and no lock held |
| VideoRuns.VideoStopReleases | common/power/power.c:115-188 | a stop gives the lock of the start back exactly under interactive, or for an encode hint under ondemand, for every governor reading |
| VideoRuns.HintDefaults | common/power/power.c:99-136 | without `hint_id` a decode hint acts on 0x0B00 and an encode hint on 0x0A00; without a state of 0 or 1 nothing changes |
| VideoRuns.VideoLocksOfRun | common/power/power.c:85-189 | the locks held under a video id after any run are those that its granted starts and effective stops leave, newest first |
| VideoRuns.LocksFollowHints | common/power/power.c:85-189 | through any run there is one lock per start not yet stopped, exactly when every start gets its lock and every stop of something started is acted upon |
| SlackRuns.OnRestoresIff | common/power/power.c:379-430 | from a state that no display-on has forgotten, a display-on whose writes succeed restores all nodes exactly when none is scaled or it is processed under msm-dcvs |
| SlackRuns.SlackNode | common/power/power.c:273-436 | what any display call does to a node, its saved value and the mode |
| SlackRuns.OneWayRunsKeepSlack | common/power/power.c:273-436 | nothing is saved or written until the display has been on and then off |
| SlackRuns.RestoredIffReached | common/power/power.c:273-436 | over any run every display-on leaves all nodes at their values, exactly when each finds no scaled node that it does not write back |
| SlackRuns.TenfoldStep | common/power/power.c:273-364 | one event takes a node above ten times its value exactly when a display-off takes a tenfold value for the original and writes it |
| SlackRuns.TenfoldAtMost | common/power/power.c:273-436 | over any run every node stays at its value or ten times it, exactly when no event scales a tenfold value |
| SlackRuns.OnRestores | common/power/power.c:273-436 | under a fixed msm-dcvs governor nodes are at their values or ten times these, and at their values after every display-on that reads the governor |
| SlackRuns.StaysTenfold | common/power/power.c:366-436 | a run with successful writes ends with the display on and a node at ten times its value, for every last reading but msm-dcvs |
| SlackRuns.TenfoldTwice | common/power/power.c:273-436 | a run with a governor change in which a node ends at a hundred times its value |
| Metadata.ParseVideoMetadata | common/power/metadata-parser.c:69-99 | the loop over the segments folds them into the record |
| Metadata.SegmentMeaning | common/power/metadata-parser.c:36-67 | a segment sets a field exactly when the text before its first `=` is the name and a value follows, cut to the buffer |
| Metadata.AttributeOf | common/power/metadata-parser.c:36-67 | `name=value` gives a non-empty value, cut to 1023 characters, to that name only |
| Metadata.AtoiReads | common/power/metadata-parser.c:85-91 | a value is read as blanks, an optional sign and digits, whatever follows |
| Metadata.LastWins | common/power/metadata-parser.c:76-93 | each field is the last value given for it, or the initial one |
| Metadata.ForeignSegmentsDoNotMatter | common/power/metadata-parser.c:76-93 | segments without `=`, without value or with another name play no part |
| Metadata.ParseJoined | common/power/metadata-parser.c:69-99 | parsing two strings joined by a semicolon is parsing one after the other |
| Metadata.PrintThenParse | common/power/metadata-parser.c:69-99 | printing a record and parsing it gives it back, for all C ints |
| MetaImage.ParseArguments | common/meta_image/make_image_tool.py:91-105 | the argument loop, including the cut at `-v` and the index error behind it |
| MetaImage.VersionArgument | common/meta_image/make_image_tool.py:91-99 | pairs and then `-v` with a version are taken and the rest ignored; `-v` as the last argument is the index error |
| MetaImage.LastPairWins | common/meta_image/make_image_tool.py:96-105 | an image name gets partition and path of its last pair |
| MetaImage.NamesHavePairs | common/meta_image/make_image_tool.py:96-105 | every image name comes from a pair |
| MetaImage.SharedNames | common/meta_image/make_image_tool.py:100-105 | two partitions share a key only as `aboot` and `apps` or as `sbl1` and `boot` |
| MetaImage.AssignOffsets | common/meta_image/make_image_tool.py:117-157 | offsets are assigned before any byte is written, one behind the other from the end of the table |
| MetaImage.MakeImage | common/meta_image/make_image_tool.py:144-201 | the written file is header, table and images in one dictionary order |
| MetaImage.ContentsHold | common/meta_image/make_image_tool.py:200-201 | the real position of each image in the concatenation is the sum of the sizes before it |
| MetaImage.MetaRoundTrip | common/meta_image/make_image_tool.py:166-202 | the file parses back to magic, versions, version string, header size, the number of images and each partition name and content |
| MetaImage.HeaderReadsBack | common/meta_image/make_image_tool.py:166-182 | every field of the meta header at its place, the version padded with zeros to 64 bytes |
| MetaImage.EntryIsRaw | common/meta_image/make_image_tool.py:188-201 | every field of an image header at its place: the name padded with zeros, the real position of the image, its size |
| MetaImage.PairIsPacked | common/meta_image/make_image_tool.py:91-201 | the last pair of a name on the command line is an entry with its partition and the bytes of its file |

## Left out

- QcdtWriter.BuildImage: assumes that table and regions stay below 2^31 bytes, the range in which the C arithmetic of `main` is exact; it speaks of the bytes this run wrote, since the output file is not truncated when opened.
- QcdtWriter.KeptImageReadsBack: stated for images inside the same 2^31 bound.
- TagLines.GetVersionInfo: a line is taken to carry at most one tag; `strtok_r` cutting a line between two tags is not modelled. `strtoul` is a parameter, so the results hold for any conversion of tokens to numbers.
- DtbScan.ScanDirectory: running the device tree compiler, reading the directory and `stat` are inputs; running out of memory and freeing are not modelled. A failing decompiler prints no lines.
- MetaImage.MetaRoundTrip: requires a version of at most 64 and names of at most 72 characters without NUL, and a table below 65536 bytes; the script writes broken headers or stops outside these limits.
- MetaImage.MakeImage: every image can be opened and does not change between `stat` and reading.
- RadioPlan.InstallReachesTargets: hashing is free of collisions, the places of different images are distinct, plain destinations lie outside `/firmware` and `/tmp`, and commands are atomic.
- RadioPrepare.RadioUpdate: requires in addition that no radio file name ends in `.p`, that patched sources are not empty, and that the package holds the prepared files beside whatever else it ships; the generator raises an exception or emits no checks otherwise.
- PowerHal.Hal.ScaleSlack: `10 * saved` is computed in unbounded integers; an overflow of the C `int` is not modelled.
- Metadata.PrintThenParse: `atoi` is modelled without its undefined overflow.
- Reading the file map and the zip archives (`LoadFilesMap`, `GetRadioFiles`) are inputs; so are patch computation, decryption and the answers of `boot_update`.
- RadioGenerate.GenerateUpdate: the commands that the rest of the system update puts between verification and installation.
- The size fields inside `EMMC:` strings, comments and printing in the update script.
- What `boot_update` does to the partition table, and failing mounts.
- `slack_node_rw_failed`, which is assigned from a variable that is never initialised, and the optional `interaction` boost.
- `power_init`, `power_hint` dispatch, sysfs paths and library loading: their results are inputs.
- The resource lists handed to `perf_lock_acq`; a lock is known by its handle and hint id.
- NUL bytes inside C strings.
- The power overrides of other chips, which repeat the one modelled or are simpler.
- Kernel headers, property setting at boot, the charger display, disk encryption and thermal wrappers.
