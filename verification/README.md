# Verified models of Mesa's OpenCL bindings, stable-branch picker and source lists

This project models three pieces of the Mesa tree that carry real algorithms, and
proves what they promise.

* **OpenCL C++ bindings** (`mesa-src/include/CL/cl.hpp`).
  * The lazily created default context and command queue are an interleaved step
    system over any number of calls (`LazyDefault*.dfy`). Both levels run one
    compare-and-swap / spin / publish protocol; its invariant is proved once and
    instantiated twice, the queue level calling the context level from inside its
    initialising block.
  * Reference counting (`RefCounting.dfy`, `DeviceRefCounting.dfy`) is a ledger: the
    driver's counters, the handle in every live wrapper, and the references held
    outside wrappers. The wrapper classes themselves (`WrapperObjects.dfy`,
    `DeviceWrapperObjects.dfy`) are objects whose members are proved to perform the ledger's
    operations; device wrappers are shown to refine ordinary ones.
  * The fixed-capacity vector (`BoundedVector.dfy`) and the version parser
    (`Version.dfy`).
* **Stable-branch picker** (`mesa-src/bin/pick/core.py`): nomination of one commit,
  the fix-closure and revert-cancellation loops, the concurrent gathering under a
  semaphore, and what happens when a history is processed in several runs with the
  state saved in between (`Pick*.dfy`). Commits are objects changed in place; the
  loops are proved against functions on records.
* **Source lists** (`mesa-src/scons/source_list.py`, `mesa-src/scons/custom.py`): the
  GNU Make subset with continuation lines and eager expansion, from physical lines
  to lists of source files (`Text.dfy`, `Expansion.dfy`, `SourceList.dfy`,
  `LogicalLines.dfy`, `WordConservation.dfy`, `DeclaredNames.dfy`, `WordMeaning.dfy`,
  `SourceFiles.dfy`).

`dafny verify dfyconfig.toml` checks everything.

## How the code is represented

* Shared memory is sequentially consistent; exceptions of the bindings are off.
* The driver's answers (created objects, query results, platform versions), git's
  answers and the matches of the picker's regular expressions are parameters. They
  are arbitrary, and stable where they are functions.
* Python exceptions are error values: the parser's `RuntimeError`s, `KeyError`, and the
  `IndexError`s raised by a trailing `$` and by a line of white space only.
* Commit lists run from newest to oldest, with distinct shas that do not occur in the
  previous list.

## Where code and comments disagree

The models follow the code.

* `cl.hpp:2685` promises that all calls return the first call's context. That holds for
  the build that initialises the flag to 1 (line 2854) and fails for the `std::atomic`
  definition without initialiser (line 2852): `OverlapDisagrees`. Runs of that build keep the
  promise exactly if at most one call reads the flag while it is still 0: `FromZeroOnceIff`.
* `core.py:300-304` speaks of commits that fix or revert a staged commit; the first loop
  promotes fixes only, and a revert of a commit nominated in an earlier run has no
  effect (`RevertAcrossRuns`); which cuts of a history into runs have such an effect is decided by
  `CutInvisibleIff`.
* `source_list.py:6` and the message at line 69 name `=`, `:=` and `+=`; `?=` is
  accepted too.
* A list that ends inside a continuation loses its last definition without an error
  (`FeedMeaningOpen`); `mesa-src/src/panfrost/Makefile.sources` ends that way.

## Model

| member | source | states |
|---|---|---|
| LazyDefault.AdvanceKeepsLevel | mesa-src/include/CL/cl.hpp:2689-2731 | every step of the compare-and-swap / spin / publish protocol keeps one owner while the flag is 2, correct published values while it is 4, and moves the flag only 1 to 2 to 4 |
| LazyDefault.NextKeepsInv | mesa-src/include/CL/cl.hpp:5623-5682 | every step of any call, nested context call included, keeps the invariant of both levels and never changes a published context |
| LazyDefault.RunKeepsInv | mesa-src/include/CL/cl.hpp:5623-5682 | the two-level invariant holds in every state reachable from flag value 1 by any interleaving of any number of calls |
| LazyDefaultGuarantees.OnceOnly | mesa-src/include/CL/cl.hpp:2687-2733 | at most one context and one queue are ever created, the queue on that context and only if it was created without error; no two calls are in an initialising block; nothing is returned before publication and every call returns the created object, and its error exactly if it passed an error pointer |
| LazyDefaultGuarantees.DriverAnswers | mesa-src/include/CL/cl.hpp:5623-5682 | over every run, a context or queue counts as created only as the answer the driver gave in that very step; without a queue request a failed context stands for a null queue with its error |
| LazyDefaultGuarantees.ReturnsTheAnswer | mesa-src/include/CL/cl.hpp:2687-2733 | every finished context call returned the handle, and to callers with an error pointer the error, that the driver answered in some step of the run |
| LazyDefaultGuarantees.ErrorsAsWanted | mesa-src/include/CL/cl.hpp:5631-5680 | from any starting value, a call has loaded an error exactly if its caller passed an error pointer; the nested call always does |
| LazyDefaultGuarantees.SameAsTheFirst | mesa-src/include/CL/cl.hpp:2685-2733 | a call that returns later returns the same context (queue) as any call that returned earlier in the run |
| LazyDefaultGuarantees.FlagHistory | mesa-src/include/CL/cl.hpp:1083-1102 | along every run both flags take only the values 1, 2, 4, in that order and without skipping |
| LazyDefaultGuarantees.NoDeadlock | mesa-src/include/CL/cl.hpp:5636-5650 | every reachable state with an unfinished call has a call that can take a non-spinning step, across both levels |
| LazyDefaultGuarantees.StepWeight | mesa-src/include/CL/cl.hpp:5623-5682 | every non-spinning step uses up weight and every spinning step changes nothing |
| LazyDefaultGuarantees.BoundedProgress | mesa-src/include/CL/cl.hpp:5623-5682 | in every run of n calls at most 20 n steps are non-spinning |
| LazyDefaultGuarantees.CanComplete | mesa-src/include/CL/cl.hpp:5623-5682 | every reachable run can be extended, within the bound, to one in which all calls have returned |
| LazyDefaultZeroStart.FromZeroNeverTaken | mesa-src/include/CL/cl.hpp:2852 | from flag value 0 the flag never becomes 2 and no call ever waits |
| LazyDefaultZeroStart.LooksCounted | mesa-src/include/CL/cl.hpp:2689-2724 | from 0, contexts (queues) made or about to be made are as many as the reads of the flag while it is 0 |
| LazyDefaultZeroStart.AsFromOne | mesa-src/include/CL/cl.hpp:5623-5682 | from 0, with at most one such read per level, the run is step by step the run from 1, with 0 standing for 1 and, once somebody initialises, for 2 |
| LazyDefaultZeroStart.OneLookIsEnough | mesa-src/include/CL/cl.hpp:2687-2733 | from 0, at most one such read keeps the once-only guarantee in every state of the run, for the context alone and for both levels |
| LazyDefaultZeroStart.FromZeroOnceIff | mesa-src/include/CL/cl.hpp:2852 | from 0, when all calls have returned, one context was made and returned by all exactly if at most one call read the flag while it was 0; for context and queue together exactly if at most one did at each level |
| LazyDefaultZeroStart.SequentialStart | mesa-src/include/CL/cl.hpp:2689-2724 | from 0, if the first call returns before any other begins, one context is created and every later call returns it; if it was a queue call, the same holds for the queue |
| LazyDefaultZeroStart.OverlapDisagrees | mesa-src/include/CL/cl.hpp:2689-2724 | from any starting value that is not 1 and has neither state bit set, 0 among them, two overlapping calls create and return two different contexts |
| LazyDefaultZeroStart.StartDecides | mesa-src/include/CL/cl.hpp:2851-2855 | of all integers, 1 is the only starting value from which a context is made and all calls in all runs agree on it; from values with a state bit set none is ever made, from all others calls can disagree |
| RefCounting.ApplyKeeps | mesa-src/include/CL/cl.hpp:1832-1882 | every operation keeps counter = holding wrappers + outside references and reaches no dead handle, although assignment releases before it retains and wrappers may share handles |
| RefCounting.ApplyHolds | mesa-src/include/CL/cl.hpp:1832-1882 | after every operation wrappers hold what plain handle variables would hold |
| RefCounting.CopiesAndMoves | mesa-src/include/CL/cl.hpp:1841-1874 | a copy holds what its source held, which keeps it; a move empties its source; self-assignment changes nothing; no other wrapper changes |
| RefCounting.DeadCallsAreFaults | mesa-src/include/CL/cl.hpp:1707-1714 | a retain or release is counted as a fault exactly if its handle is dead |
| RefCounting.Conservation | mesa-src/include/CL/cl.hpp:1822-1901 | over every sequence of operations wrappers hold what plain variables would, counters equal holders, no retain or release hits a dead handle, an object lives exactly while somebody owns it, and nothing is left when nobody does |
| WrapperObjects.Driver.Retain | mesa-src/include/CL/cl.hpp:1707-1714 | the counter grows by one and the call succeeds exactly for live handles; other calls are counted as faults |
| WrapperObjects.Driver.Release | mesa-src/include/CL/cl.hpp:1707-1714 | the counter shrinks by one, the object dies with its last reference, and the call succeeds exactly for live handles |
| WrapperObjects.Wrapper.Default | mesa-src/include/CL/cl.hpp:1832 | a new wrapper holds nothing |
| WrapperObjects.Wrapper.Adopt | mesa-src/include/CL/cl.hpp:1834 | adopting a handle touches no counter |
| WrapperObjects.Wrapper.Copy | mesa-src/include/CL/cl.hpp:1841-1845 | the copy holds the handle and has retained it |
| WrapperObjects.Wrapper.Move | mesa-src/include/CL/cl.hpp:1848-1852 | the handle changes hands, the source holds nothing, no counter changes |
| WrapperObjects.Wrapper.Destroy | mesa-src/include/CL/cl.hpp:1836-1839 | the held handle is released and the wrapper is gone |
| WrapperObjects.Wrapper.CopyAssign | mesa-src/include/CL/cl.hpp:1855-1863 | the wrapper holds what the right-hand side holds; release of the old handle, then retain of the new one, and nothing on self-assignment |
| WrapperObjects.Wrapper.MoveAssign | mesa-src/include/CL/cl.hpp:1866-1874 | the wrapper holds what the right-hand side held and empties it; release of the old handle, then transfer; nothing on self-assignment |
| WrapperObjects.Wrapper.RawAssign | mesa-src/include/CL/cl.hpp:1877-1882 | release of the old handle, then adoption of the new one |
| WrapperObjects.GetInfo | mesa-src/include/CL/cl.hpp:1309-1326 | on success the target holds the reported handle, the books balance and no call reached a dead handle, also if it held that handle before; on failure nothing changes |
| WrapperObjects.OverwritePrefix | mesa-src/include/CL/cl.hpp:1206 | overwriting elements leaves exactly the overwritten ones without a reference of their own |
| WrapperObjects.RetainAll | mesa-src/include/CL/cl.hpp:1207-1216 | the retain loop pays for one element after the other until counters equal holders |
| WrapperObjects.GetInfoVector | mesa-src/include/CL/cl.hpp:1190-1218 | on success the vector holds exactly the reported handles, other wrappers are untouched and the books balance, also when old and new elements share handles; on failure nothing changes |
| DeviceRefCounting.ApplyRefines | mesa-src/include/CL/cl.hpp:1925-1988 | every operation on device wrappers keeps the cached flag equal to `isReferenceCountable` and is the ordinary wrapper operation once devices without a counter are forgotten |
| DeviceRefCounting.DevicesHeld | mesa-src/include/CL/cl.hpp:1925-1988 | after every operation device wrappers hold what plain variables would hold, root devices included |
| DeviceRefCounting.CountableFromOneTwo | mesa-src/include/CL/cl.hpp:1913-1922 | a device is reference countable exactly if it is not null and its platform version is 1.2 or later |
| DeviceRefCounting.DeviceConservation | mesa-src/include/CL/cl.hpp:1904-2020 | over every sequence of operations wrappers hold what plain variables would; flags are set exactly for devices of platforms from 1.2 on; the sub-devices among those have one reference per holder, all other devices may be wrapped without a reference and are never counted, and no call reaches a dead device |
| DeviceWrapperObjects.DeviceWrapper.Adopt | mesa-src/include/CL/cl.hpp:1930-1933 | adopts the device and computes the flag |
| DeviceWrapperObjects.DeviceWrapper.Copy | mesa-src/include/CL/cl.hpp:1940-1945 | copies the device, recomputes the flag, retains counted devices |
| DeviceWrapperObjects.DeviceWrapper.Move | mesa-src/include/CL/cl.hpp:1948-1954 | moves device and flag and empties the source |
| DeviceWrapperObjects.DeviceWrapper.CopyAssign | mesa-src/include/CL/cl.hpp:1957-1966 | the wrapper holds the device and flag of the right-hand side; releases, copies, retains; nothing on self-assignment |
| DeviceWrapperObjects.DeviceWrapper.MoveAssign | mesa-src/include/CL/cl.hpp:1969-1979 | releases, moves device and flag, empties the source; nothing on self-assignment |
| DeviceWrapperObjects.DeviceWrapper.RawAssign | mesa-src/include/CL/cl.hpp:1982-1988 | releases, adopts the device and recomputes the flag |
| DeviceWrapperObjects.DeviceWrapper.RetainHeld | mesa-src/include/CL/cl.hpp:2001-2009 | retains exactly non-null devices whose flag is set |
| DeviceWrapperObjects.DeviceWrapper.ReleaseHeld | mesa-src/include/CL/cl.hpp:2011-2019 | releases exactly non-null devices whose flag is set |
| DeviceWrapperObjects.DeviceWrapper.Destroy | mesa-src/include/CL/cl.hpp:1935-1938 | a counted device is released and the wrapper is gone |
| Version.GetVersion | mesa-src/include/CL/cl.hpp:1772-1789 | the two scanning loops compute the packed version of every well-formed string |
| Version.VersionOfPrinted | mesa-src/include/CL/cl.hpp:1771-1789 | parsing "OpenCL major.minor" followed by a space or NUL gives major * 2^16 + minor for all major < 2^15, minor < 2^16 |
| Version.PackIsSum | mesa-src/include/CL/cl.hpp:1788 | shifting and or-ing the two parts is their sum |
| Version.TestsMeanOneTwo | mesa-src/include/CL/cl.hpp:1917-1918 | the test for countable devices and the one at line 3940 agree and mean (major, minor) >= (1, 2) lexicographically |
| BoundedVector.NeverOverfull | mesa-src/include/CL/cl.hpp:754-776 | no sequence of operations exceeds the capacity |
| BoundedVector.OpsByPosition | mesa-src/include/CL/cl.hpp:743-929 | push, pop, clear, resize and assign by length and by the element at each position, with their no-op cases |
| BoundedVector.PopUndoesPush | mesa-src/include/CL/cl.hpp:754-776 | pop undoes a push that had room, and resizing back undoes a resize that grew |
| BoundedVector.PushAll | mesa-src/include/CL/cl.hpp:754-762 | pushing a range keeps what fits, from the front, in order |
| BoundedVector.AssignIsPushes | mesa-src/include/CL/cl.hpp:921-929 | assigning a range is clearing and pushing it |
| BoundedVector.Vector.PushBack | mesa-src/include/CL/cl.hpp:754-762 | appends, or does nothing when full |
| BoundedVector.Vector.PopBack | mesa-src/include/CL/cl.hpp:768-776 | removes the last element, or does nothing when empty |
| BoundedVector.Vector.Clear | mesa-src/include/CL/cl.hpp:743-748 | leaves the vector empty |
| BoundedVector.Vector.Filled | mesa-src/include/CL/cl.hpp:796-802 | holds min(size, N) copies of the value |
| BoundedVector.Vector.Copy | mesa-src/include/CL/cl.hpp:782-788 | equals the vector copied, although the size is taken over before any element |
| BoundedVector.Vector.CopyAssign | mesa-src/include/CL/cl.hpp:811-824 | equals the right-hand side, self-assignment included |
| BoundedVector.Vector.Equals | mesa-src/include/CL/cl.hpp:830-842 | true exactly for equal contents |
| BoundedVector.Vector.Resize | mesa-src/include/CL/cl.hpp:869-888 | truncates or pads to the new size, or does nothing beyond the capacity |
| BoundedVector.Vector.Assign | mesa-src/include/CL/cl.hpp:921-929 | holds the first min(length, N) elements of a range of another vector |
| BoundedVector.Visit | mesa-src/include/CL/cl.hpp:934-1045 | a loop from begin to end visits every element once, in order, the empty vector with index -1 included |
| Pick.ToJson | mesa-src/bin/pick/core.py:124-139 | what is saved of a commit is loaded back unchanged |
| Pick.LoadedCommit | mesa-src/bin/pick/core.py:131-139 | a stored dictionary loads exactly if its numbers are those of the enumerations, with each field in its place, missing types as none and missing resolutions as UNRESOLVED |
| Pick.LoadSaved | mesa-src/bin/pick/core.py:366-377 | saving and loading a list is the identity |
| PickCommits.Commit.ResolveNomination | mesa-src/bin/pick/core.py:249-296 | the commit's fields become those of the nomination function |
| PickOutcome.NominationDecision | mesa-src/bin/pick/core.py:262-296 | a commit is nominated on its own exactly if it fixes something in the branch, has a cc without versions or with this version in either place, or reverts something in the branch, and its type and cause follow that precedence |
| PickFixes.PassOneIsSound | mesa-src/bin/pick/core.py:311-316 | the pass nominates nothing outside any closed set, for lists in any order |
| PickFixes.DueIsLeast | mesa-src/bin/pick/core.py:311-316 | the commits linked by a chain of pending fixes, of any length, to one nominated on its own or to an earlier run form the least fixed point |
| PickFixes.SinglePassClosure | mesa-src/bin/pick/core.py:305-316 | if fixes name older commits, one oldest-to-newest pass computes exactly the least fixed point of "nominated, or fixes a nominated new or previous commit", which is the set of commits that are due |
| PickFixes.PassOneIsLeastIff | mesa-src/bin/pick/core.py:311-316 | for lists in any order with distinct shas, the result is the least fixed point exactly when no commit that is due has a pending fix listed as older than itself |
| PickFixes.FixListedBeforeItsCause | mesa-src/bin/pick/core.py:311-316 | with the two commits listed the wrong way round the fix is missed |
| PickCommits.PromoteFixes | mesa-src/bin/pick/core.py:311-316 | the first loop computes the pass in place and `shas` ends as previous plus nominated |
| PickCommits.CancelReverts | mesa-src/bin/pick/core.py:318-330 | the second loop denominates exactly the targets and their newest reverts; the removed sha is always present |
| PickCommits.FindOldest | mesa-src/bin/pick/core.py:321-330 | finds the oldest commit with the given sha, or none exists |
| PickCommits.ResolveFixes | mesa-src/bin/pick/core.py:299-330 | both loops in place equal their specification |
| PickCommits.FinishGathering | mesa-src/bin/pick/core.py:357-363 | the list handed back equals the specification of everything after gathering |
| PickOutcome.RevertsCancelExactly | mesa-src/bin/pick/core.py:318-330 | denominated are exactly the nominated commits reverted in the list plus the newest revert of each; nothing is nominated anew |
| PickOutcome.OutcomePartition | mesa-src/bin/pick/core.py:333-363 | every commit ends UNRESOLVED exactly when nominated and otherwise DENOMINATED or NOTNEEDED, and every nomination is justified by a matching cc, or by a revert or fix tag that names, as its cause, a reverted commit in the branch, or a fixed commit in the branch, in an earlier run, or nominated among the older commits |
| PickOutcome.NominatedExactly | mesa-src/bin/pick/core.py:299-363 | if fixes name older commits, a commit ends up nominated exactly if it is due, no listed commit reverts it, and it is not the newest revert of a commit that is due |
| PickBatches.SafeCutIsInvisible | mesa-src/bin/pick/core.py:299-377 | cutting a history into two runs, state saved and loaded in between, changes nothing if no revert and no fix is separated from what it acts on |
| PickBatches.CutInvisibleIff | mesa-src/bin/pick/core.py:299-377 | cutting a history into two runs, state saved and loaded in between, changes no record exactly if no newer fix waits for a commit the older part denominates and whatever a revert across the cut touches is denominated by its own part anyway |
| PickBatches.CancelledApartIff | mesa-src/bin/pick/core.py:318-330 | the second loop treats two parts of a list independently exactly if the reverts across the cut are harmless |
| PickBatches.BatchIndependence | mesa-src/bin/pick/core.py:333-377 | for all answers of git, a log without reverts gives the same nominations and resolutions however it is cut into calls of `gather_commits`, each fed the saved and loaded result of the earlier ones |
| PickBatches.RevertAcrossRuns | mesa-src/bin/pick/core.py:318-330 | a commit and its revert cancel in one run and do not if a run ends between them |
| PickBatches.RevertedRevertsHideTheCut | mesa-src/bin/pick/core.py:318-330 | four commits each reverting the next are all denominated in one run and in two, although the cut separates a revert from its target |
| PickGather.ScheduleIndependence | mesa-src/bin/pick/core.py:340-355 | in every interleaving at most 50 permits are out, filled slots hold their own commit's nomination, and when all tasks are done the array has no gap and equals the nominations in input order |
| PickGather.AnsweredKeepsResult | mesa-src/bin/pick/core.py:225-296 | each answer from git leaves the task on its way to the sequential result, without a permit |
| PickGather.NoDeadlock | mesa-src/bin/pick/core.py:225-258 | a task holding a permit never waits for another, so in every unfinished state some task can move |
| PickGather.BoundedMoves | mesa-src/bin/pick/core.py:225-296 | every schedule contains at most 12 moves per task |
| PickGather.CanFinish | mesa-src/bin/pick/core.py:349-355 | every schedule can be continued until all tasks have finished |
| PickGather.GatheredOutcome | mesa-src/bin/pick/core.py:333-363 | the result of gathering does not depend on the schedule |
| Text.WordsAround | mesa-src/scons/custom.py:281 | splitting at white space neither merges, splits nor loses words |
| Text.WordsMeaning | mesa-src/scons/custom.py:281 | words are non-empty, free of white space, and together hold every other character in order |
| Text.SpaceCodes | mesa-src/scons/source_list.py:84-98 | white space is the characters 9 to 13 and 28 to 32 |
| Text.LStripMeaning | mesa-src/scons/source_list.py:74 | stripping on the left removes exactly the leading white space |
| Text.RStripMeaning | mesa-src/scons/source_list.py:92 | stripping on the right removes exactly the trailing white space |
| Expansion.ExpandMeaning | mesa-src/scons/source_list.py:28-56 | expansion succeeds with r exactly when the value reads as text and references to known symbols and r is their one-level substitution |
| Expansion.ExpandFailure | mesa-src/scons/source_list.py:28-56 | a value whose first part expands and goes on with a lone `$`, a `$` without parenthesis, an open reference or an unknown name fails with the error for that |
| Expansion.FailureFound | mesa-src/scons/source_list.py:28-56 | every failing value is of that form |
| Expansion.ExpandConcat | mesa-src/scons/source_list.py:42-56 | values that expand separately expand together, piece by piece |
| SourceList.SourceListParser.NextDereference | mesa-src/scons/source_list.py:28-40 | the first reference at or after a position, or the error found there |
| SourceList.SourceListParser.ExpandValue | mesa-src/scons/source_list.py:42-56 | the scanning loop terminates and computes the expansion, errors included |
| SourceList.SourceListParser.ParseDefinition | mesa-src/scons/source_list.py:58-82 | the symbol table after a definition line, unchanged on every error |
| SourceList.SourceListParser.ParseLine | mesa-src/scons/source_list.py:84-110 | symbols, open continuation, line count and error after one physical line |
| SourceList.SourceListParser.Parse | mesa-src/scons/source_list.py:112-127 | the table after all lines; on an error the definitions read so far stay and the parser is reset; a file parsed last is not read again |
| SourceList.SourceListParser.AddSymbol | mesa-src/scons/source_list.py:129-130 | seeds one symbol and leaves the others |
| SourceList.LineKinds | mesa-src/scons/source_list.py:84-110 | what a logical line does by its first character that is not white space: empty, white space only, comment, recipe line or definition |
| SourceList.DefineErrors | mesa-src/scons/source_list.py:58-69 | a line without `=` and a line that starts with one are rejected with their errors |
| LogicalLines.ContinuationRefinement | mesa-src/scons/source_list.py:84-122 | feeding physical lines equals executing the joined logical lines, with the same symbols, count and error; `line_cont` is non-empty exactly while a block is open |
| LogicalLines.EveryFileGroups | mesa-src/scons/source_list.py:84-98 | every file falls into complete blocks and possibly an open one |
| LogicalLines.FeedNoDollar | mesa-src/scons/source_list.py:58-82 | if the seeded symbols hold no `$`, no value in any reachable table does |
| LogicalLines.StoredValuesAreFixed | mesa-src/scons/source_list.py:42-82 | expanding a stored value again, now or after more lines, changes nothing |
| WordConservation.DefineOf | mesa-src/scons/source_list.py:58-82 | a definition line is taken apart into its symbol, operator and value |
| WordConservation.FeedDefinition | mesa-src/scons/source_list.py:58-98 | reading a definition over any number of continuation lines leaves exactly the symbols the definition means |
| WordConservation.DefinitionWords | mesa-src/scons/source_list.py:58-82 | a definition gives its symbol exactly the words of its pieces, after the old words for `+=`, and leaves other symbols alone |
| WordConservation.FeedMeaning | mesa-src/scons/source_list.py:84-127 | the parser reads a file without error and ends with exactly the symbols given by a meaning defined on the items alone |
| WordConservation.FeedMeaningOpen | mesa-src/scons/source_list.py:84-127 | a file that ends inside a continuation ends with the symbols of its complete definitions |
| WordConservation.MeaningWords | mesa-src/scons/source_list.py:58-82 | in that meaning no word of any symbol is lost, invented, duplicated or moved |
| WordConservation.FileWords | mesa-src/scons/source_list.py:112-127 | after a whole file, also one that ends inside a continuation, every symbol has exactly the words collected from its pieces |
| WordConservation.CollectedIsConcatenation | mesa-src/scons/source_list.py:76-82 | a symbol defined once and extended by `+=` holds its pieces in file order |
| DeclaredNames.ExpandsIffScans | mesa-src/scons/source_list.py:28-56 | a value expands exactly if every `$` starts a complete reference to a known name, whatever the values are |
| DeclaredNames.ReadableIffDeclared | mesa-src/scons/source_list.py:58-127 | the precondition of word conservation (each piece of each definition expands by itself when its turn comes, and `+=` has a symbol to extend) holds exactly if the definitions are well formed and every reference and every `+=` names a symbol that is seeded or defined above it |
| WordMeaning.PieceReplaced | mesa-src/scons/source_list.py:42-56 | if references stand alone as words, expanding and splitting a value is splitting it and replacing each reference by the words of its symbol |
| WordMeaning.ListsOfWords | mesa-src/scons/source_list.py:58-127 | for files whose references stand alone the symbols, split into words, are those of a meaning on lists of words |
| SourceFiles.ListSources | mesa-src/scons/custom.py:279-297 | the rewritten words that are not headers, in order |
| SourceFiles.SourcesSelect | mesa-src/scons/custom.py:279-297 | the files returned for a value are its words whose rewritten form does not end in `.h`, `.hpp` or `.inl`, rewritten, selected by strictly increasing positions, none left out |
| SourceFiles.HeaderIff | mesa-src/scons/custom.py:293 | headers are exactly the names of the form stem plus `.h`, `.hpp` or `.inl` |
| SourceFiles.RewriteMeaning | mesa-src/scons/custom.py:284-291 | a path below the `src` directory of the build loses that component, a path below the current directory becomes relative, in this order, and any other path stays |
| SourceFiles.SeedsMean | mesa-src/scons/custom.py:259-260 | references to the two seeded symbols stand for the top source and build directories |
| SourceFiles.ListNamed | mesa-src/scons/custom.py:276-305 | the sources of the requested symbols in order, none of them a header, or the first missing symbol |
| SourceFiles.ParseSourceList | mesa-src/scons/custom.py:244-307 | errors of the file, the first missing name, the concatenated sources of the names with no header among them, or the sources of every symbol |
| SourceFiles.EndToEnd | mesa-src/scons/custom.py:259-305 | requested names, each defined once and then extended, yield exactly the rewritten non-header words of their pieces, in order of request and of the file, also if the file ends inside a continuation |
| SourceFiles.WordsEndToEnd | mesa-src/scons/custom.py:259-305 | for files whose references stand alone the build script gets the sources of the lists of words the file means, with any operators; the known names are the seeds and those the file defines |
| SourceFiles.PlainEndToEnd | mesa-src/scons/custom.py:259-305 | for files without references the sources of a symbol are the rewritten non-header words written for it, read off the text |
| SourceFiles.ListInTwoPlaces | mesa-src/scons/custom.py:259-305 | a list defined in one place and extended in another, both over any number of lines, yields the sources of the first followed by those of the second |

## Left out

- Weak memory, tearing of `default_` while it is assigned, and the exception-enabled paths of the bindings.
- Error returns part-way through a retain loop, the mutable reference returned by `operator()()`, and `Program::createKernels`, which copies from temporaries that are never destroyed.
- WrapperObjects.GetInfoVector: the order of construction and destruction is the one of an in-place `assign`; a reallocating `assign` constructs before it destroys, with the same balance.
- A program's own `clRetainDevice` and `clReleaseDevice` on root devices, which have no effect.
- Information queries on device wrappers are operations of the device ledger (`Info` in `DeviceConservation`) and have no object-level method.
- Version.GetVersion: inputs without both stops, with other characters than digits before them, or with numbers beyond an `int`, on which the code reads or computes out of range.
- Element construction and destruction times in `cl::vector`, its non-const `back()`, conversion to a pointer, and assignment from a range of the vector itself.
- `cl::string`, the enqueue wrappers, constructors around `clCreate*` and the functor templates.
- Git subprocesses, regular expressions, JSON text, the `cb` progress callback, applying commits, and the picker's user interface; a failing `git log` stops the whole gathering.
- The text of error messages (file name and line number), and reading the file itself: `parse` is given the lines.
- White space beyond ASCII, and the replacement of backslashes in directory names.
- The order in which `parse_source_list` lists all symbols when no names are given.
