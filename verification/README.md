# Unified Runtime: verified models of its generators and common components

This project models the parts of the Unified Runtime repository that carry real invariants and
proves what they promise, for all inputs, all runs or all interleavings. `dafny verify
dfyconfig.toml` checks everything.

| file | what it models |
|---|---|
| `Registry.dfy` | the registry of function identifiers as a state machine over repeated generator runs, with its file written without prefixes and read back with them |
| `StructureTypes.dfy` | the identifiers of extended structures, which have no stored high-water mark |
| `Assignment.dfy` | what both have in common: known names keep their identifier, new ones are numbered from a mark |
| `Bundle.dfy` | the reader of Clang offload bundles, the bundle layout and an encoder for it |
| `GuardStripper.dfy` | the one-pass stack machine that strips guarded lines, and documents as trees |
| `LineWrap.dfy` | the greedy line wrapper of the code generator |
| `RefCounting.dfy` | the atomic reference count, and any interleaving of threads that share it |
| `PoolManager.dfy` | the hash index of USM pools, keyed by descriptors that are equal up to the native device handle |
| `Enums.dfy` | numbering and reading of enumerators, validation and masks of flags |
| `Returns.dfy` | the return conditions that parameters give rise to, their accumulation, and extraction of the parameter checks |
| `Versions.dfy` | validation of item versions, and filtering of items and descriptions by version |
| `DdiTables.dfy` | the class index, the order of the files, and the DDI tables built from both |
| `Numerals.dfy` | Python's `str`, `hex`, `strip` and `int(text, base)` for bases 10 and 16 |
| `Prelude.dfy` | options, results, sequences and Python's stable `sorted` |

## What was found

Several properties that one would expect of the code hold only under a condition. Each has a lemma
that states the exact condition, and most have a failing case beside it.

- Function identifiers are never reused over any history exactly when the first file has no clash
  (`IdsAreNeverReused`); structure identifiers can be reused (`RetiredIdReissuedIff`,
  `RetiredIdReissued`).
- A run without functions fails after the document in memory was overwritten, and leaves the file
  as it was (`GenerateFunctionType`, `RunSucceeds`).
- Regeneration on unchanged functions reproduces the file exactly when there is a function, no two
  new functions share a key, and the new identifiers stay below the limit that the reader enforces
  (`RegenerationIsFixedPoint`, `SharedKeyIsNotStable`).
- Listing a guard name also keeps the blocks of every longer name that starts with it
  (`PromiseIffNoPrefix`, `FooKeepsFoobar`).
- The line wrapper joins pieces of a word that has several newlines (`WordsKeptIff`,
  `SecondNewlineJoinsWords`), and does not enforce the documented width on a line that ends at a
  newline (`WidthIff`, `NewlineOverflows`).
- A decimal value after a hexadecimal one is read in base 16 for the numbering of its successor, and
  a leading zero is not read as octal, as C does (`NumberingAgreesIff`, `MixedBasesDisagree`,
  `OctalDisagrees`).
- The checks of a function can repeat when substitution of tags, or a final newline, makes two
  conditions the same (`NoDuplicateChecksIff`, `TagsMakeDuplicates`,
  `NoDuplicatesUnlessBothSpellings`).
- Validation and filtering disagree about the version of an item that declares none, so the kept
  items need not be a prefix (`PrefixIff`, `OlderIsPrefixOfNewerIff`, `OvertakenDefault`).
- The enumerator recorded as the maximum of an enum is the largest one if some value is not negative
  or the last one is the largest, and not otherwise (`MaxEtor`).
- A release tells the last reference exactly up to 2^32 references (`SafeExactlyUpToModulus`).

## Model

| member | source | states |
|---|---|---|
| `Registry.Document.GenerateFunctionType` | scripts/generate_ids.py:58-99 | the in-place pass computes the specified document and returns its stripped copy; without functions it raises after the list was emptied and the mark set; any other failure leaves the document unchanged |
| `Registry.Document.Overwrite` | scripts/generate_ids.py:62-95 | replaces list and mark by the specified ones |
| `Registry.Document.AssignIds` | scripts/generate_ids.py:77-92 | the loop gives a known function its value and the k-th new function the mark plus k |
| `Registry.Document.BuildKnown` | scripts/generate_ids.py:62-64 | the dictionary of known values, in which the last entry of a name counts |
| `Registry.Document.StripAll` | scripts/generate_ids.py:51-55 | the copy whose names have lost the prefix |
| `Registry.PersistentMax` | scripts/generate_ids.py:65-73 | the mark a run starts from bounds every identifier in the document |
| `Registry.MarkIsLargest` | scripts/generate_ids.py:65-73 | the mark is the larger one of the largest identifier in the document and the stored mark, and one of the two |
| `Registry.LastEntryCounts` | scripts/generate_ids.py:62-64 | of several entries with one name the last one gives the known value |
| `Registry.KthNewFunction` | scripts/generate_ids.py:77-84 | the k-th new function carries the mark plus k after the run |
| `Registry.KthNewFunctionWithoutMark` | scripts/generate_ids.py:65-84 | in a file without a mark it carries the largest identifier plus k |
| `Registry.NamesInMemory` | scripts/generate_ids.py:79 | in memory every name, read or generated, starts with `$X_FUNCTION_` |
| `Registry.WrittenEntry` | scripts/generate_ids.py:85-92 | every function is written with its key, description and guard |
| `Registry.RunSucceeds` | scripts/generate_ids.py:144-159 | a run goes through exactly for a non-empty file of numbers below the limit and at least one function; any other run leaves the file as it was |
| `Registry.RunShape` | scripts/generate_ids.py:51-99 | for a run that goes through, reading with prefixes, the pass and writing without them amount to one function of the bare file: prefixes cancel out |
| `Registry.FileListsFunctions` | scripts/generate_ids.py:93-94 | after a run that goes through, the file is sorted by value and lists exactly the entries of the functions |
| `Registry.RunIds` | scripts/generate_ids.py:81-84 | after a run an identifier is one the same name had before, or lies above the old mark and belongs to one name only |
| `Registry.MarkIsStored` | scripts/generate_ids.py:66-73 | the next run starts from the mark that this run stored |
| `Registry.MarkBoundsHistory` | scripts/generate_ids.py:65-84 | over any history the current mark bounds every identifier that any name ever had |
| `Registry.IdsAreNeverReused` | scripts/generate_ids.py:58-99 | over any history of runs (functions added, removed, re-added, duplicated; failing runs included) no identifier is ever carried by two names, if and only if that holds of the first file |
| `Registry.StoredMarkBoundsHistory` | scripts/generate_ids.py:95 | the mark in the file bounds every identifier ever issued if and only if the first file can be read and some run had a function, or the first file's mark already bounded its identifiers |
| `Registry.StoredMarkNeverDecreases` | scripts/generate_ids.py:71-73 | over any history a stored mark stays stored and never decreases |
| `Registry.KnownNameKeepsId` | scripts/generate_ids.py:81 | a known name that is still a function carries its known identifier and no other |
| `Registry.OneIdPerNameAfter` | scripts/generate_ids.py:78-92 | a run with functions leaves one identifier per name if and only if no two of its new functions share a key; one without leaves the file as it was |
| `Registry.SurvivorsKeepIds` | scripts/generate_ids.py:58-99 | a name that stays in the specification through any number of runs keeps exactly its identifier |
| `Registry.NextRunnable` | scripts/parse_specs.py:295-298 | the file after a run can be read again if and only if the new identifiers are below 0x7fffffff |
| `Registry.RegenerationIsFixedPoint` | scripts/generate_ids.py:51-99 | regeneration on the same functions gives the identical file (names, identifiers, order, descriptions, guards, mark) if and only if three checkable conditions hold |
| `Registry.SharedKeyIsNotStable` | scripts/generate_ids.py:77-84 | two new functions with one key get two identifiers at first, and the next run changes the file |
| `Registry.SharedKeyExample` | scripts/generate_ids.py:77-84 | a concrete file and two functions for which that happens |
| `StructureTypes.Document.GenerateStructureType` | scripts/generate_ids.py:102-137 | the pass overwrites the list with the specified one; it fails without enumerators, and, after overwriting, without a structure to list |
| `StructureTypes.Document.AssignIds` | scripts/generate_ids.py:114-134 | the loop skips experimental structures and numbers the new ones from the maximum |
| `StructureTypes.RunKeepsIdsUnique` | scripts/generate_ids.py:114-136 | any run, failing ones included, keeps identifiers unique |
| `StructureTypes.KnownKeepsId` | scripts/generate_ids.py:122-132 | a known structure keeps its first identifier and gets no other |
| `StructureTypes.FirstEntryCounts` | scripts/generate_ids.py:122-132 | of several enumerators with one name the first one gives the identifier |
| `StructureTypes.ListedIff` | scripts/generate_ids.py:115-118 | exactly the structures whose name does not start with `$x_exp_` are listed |
| `StructureTypes.ListIsSorted` | scripts/generate_ids.py:134-135 | the list is sorted by identifier and has one entry per included structure |
| `StructureTypes.IssuedIff` | scripts/generate_ids.py:112-130 | an unused identifier is issued if and only if it lies in the window right above the largest one in use |
| `StructureTypes.RetiredIdReissuedIff` | scripts/generate_ids.py:112-130 | exactly when an identifier that one run retired is given out again by the next run |
| `StructureTypes.RetiredIdReissued` | scripts/generate_ids.py:112-130 | a concrete two-run history in which that happens |
| `Assignment.RankInRange` | scripts/generate_ids.py:81-84 | the numbers given to new names run from one above the mark to the mark plus the number of new names |
| `Assignment.RanksDiffer` | scripts/generate_ids.py:81-84 | a later new name gets a larger number |
| `Assignment.RankReached` | scripts/generate_ids.py:81-84 | every number of that window is given out |
| `Assignment.FreshIsFiltered` | scripts/generate_ids.py:81-84 | the count behind the numbers is the number of names that are not known |
| `Numerals.StrRoundTrip` | scripts/generate_ids.py:67-95 | `int(str(n)) == n` for every integer |
| `Numerals.HexRoundTrip` | scripts/parse_specs.py:40-41 | `int(hex(n), 16) == n` for every integer |
| `Numerals.DigitsAreCanonical` | scripts/generate_ids.py:88 | printed digits are in lower case and have no leading zero |
| `Numerals.PrintedForms` | scripts/parse_specs.py:40-43 | what `str` and `hex` put before the digits |
| `Numerals.SpaceAndPlusIgnored` | scripts/parse_specs.py:41-44 | white space around a numeral and a plus sign do not matter to `int` |
| `Numerals.UnderscoreIgnored` | scripts/parse_specs.py:41-44 | single underscores between digits do not matter to `int` |
| `Numerals.DigitClasses` | scripts/parse_specs.py:41-44 | the digits of both bases and their values |
| `Numerals.CharacterClasses` | scripts/strip-guarded-lines.py:42-44 | letters, digits, word characters and white space by their codes |
| `Numerals.StripSurrounded` | scripts/strip-guarded-lines.py:43-53 | `strip` removes any white space around a text, and nothing else |
| `Numerals.StripParts` | scripts/strip-guarded-lines.py:43-53 | every text is its stripped text with white space around it |
| `LittleEndian.DecodeEncode` | source/common/offload_bundle_parser.hpp:28-33 | decoding undoes the little-endian encoding of a number that fits |
| `LittleEndian.EncodeDecode` | source/common/offload_bundle_parser.hpp:28-33 | encoding undoes decoding, and a decoded number fits |
| `LittleEndian.DecodeConcat` | source/common/offload_bundle_parser.hpp:28-33 | byte i has the weight 256^i, so the first byte is the least significant |
| `Bundle.LoadIff` | source/common/offload_bundle_parser.cpp:14-21 | a buffer is taken for a bundle exactly when it starts with the 24 bytes of the magic string |
| `Bundle.WantedIff` | source/common/offload_bundle_parser.cpp:51-70 | the search accepts exactly the identifiers that start with the bytes of "hip" and end with the target |
| `Bundle.ContainsBundle` | source/common/offload_bundle_parser.cpp:37-79 | the pointer walk returns what the specified walk finds and loops at most (length - 32) / 24 + 1 times, whatever count the header claims |
| `Bundle.WalkEntries` | source/common/offload_bundle_parser.cpp:56-78 | the loop over the entries, every load of which lies in the buffer |
| `Bundle.LoadEntry` | source/common/offload_bundle_parser.hpp:28-33 | offset, size and identifier length are the 64-bit words at 0, 8 and 16 of an entry, loaded under the obligation that they lie in the buffer |
| `Bundle.Extract` | source/common/offload_bundle_parser.cpp:23-35 | success exactly when an entry is found whose object lies in the buffer; the outputs designate exactly those bytes and are left alone when no entry is found |
| `Bundle.WalkIsBounded` | source/common/offload_bundle_parser.cpp:57-76 | the number of loop iterations is bounded by the bytes left, for every claimed count |
| `Bundle.FoundIsInside` | source/common/offload_bundle_parser.cpp:66-72 | the entry that is copied out, first identifier byte included, lies in the buffer |
| `Bundle.ExtractedFromLonger` | source/common/offload_bundle_parser.cpp:23-79 | whatever is extracted from a buffer is extracted in the same way from every buffer that extends it |
| `Bundle.FirstMatchMeaning` | source/common/offload_bundle_parser.cpp:66-72 | the reference result is the first object that is wanted, or none if there is none |
| `Bundle.ReadingFindsFirstMatch` | source/common/offload_bundle_parser.cpp:14-79 | on every buffer laid out as a bundle of given objects, wherever their bytes lie, reading gives exactly the first matching object, or INVALID_PROGRAM when there is none |
| `Bundle.EncodeIsBundle` | source/common/offload_bundle_parser.hpp:24-39 | the encoder produces a bundle of its objects as long as 64-bit offsets suffice |
| `Bundle.RoundTrip` | source/common/offload_bundle_parser.cpp:14-79 | encoding a list of objects, loading and extracting gives back, byte for byte, the object of the least index whose identifier starts with "hip" and ends with the target, and fails exactly when there is none |
| `GuardStripper.CreateGuards` | scripts/strip-guarded-lines.py:30-39 | one pair of filled markers per listed name, in order |
| `GuardStripper.FindGuard` | scripts/strip-guarded-lines.py:50-57 | the first guard that the line mentions, or none if it mentions none |
| `GuardStripper.FoundIff` | scripts/strip-guarded-lines.py:50-57 | a guard is found exactly when one of its markers occurs in the stripped line |
| `GuardStripper.GuardLineIff` | scripts/strip-guarded-lines.py:42-47 | a line is a marker line exactly when it starts with the marker and, for a named one, a name |
| `GuardStripper.DefaultMarkers` | scripts/strip-guarded-lines.py:106-114 | the default markers, filled in |
| `GuardStripper.StripGuardedLines` | scripts/strip-guarded-lines.py:60-84 | the loop with its stack computes the specified run, including stack underflow and the interleaving assertion |
| `GuardStripper.DefaultsAreSeparated` | scripts/strip-guarded-lines.py:106-114 | the default markers cannot be confused with each other |
| `GuardStripper.OpeningLine` | scripts/strip-guarded-lines.py:42-57 | an opening line, possibly with more text after the name, is recognised, and a guard is found in it exactly when some listed name is a prefix of the line's name |
| `GuardStripper.IndentedMarkers` | scripts/strip-guarded-lines.py:42-44 | marker lines may be indented and end in any white space |
| `GuardStripper.StripOnTree` | scripts/strip-guarded-lines.py:60-84 | on every well-nested document, marker lines with further text included, the machine completes and outputs exactly the plain lines all of whose enclosing names have a listed prefix, in order |
| `GuardStripper.PromiseIffNoPrefix` | scripts/strip-guarded-lines.py:9-22 | the documented behaviour holds on all documents over a set of names if and only if no listed name is a prefix of an unlisted one of them |
| `GuardStripper.ListedPrefixKeepsTooMuch` | scripts/strip-guarded-lines.py:50-57 | listing a name breaks the documented behaviour for every longer name that starts with it |
| `GuardStripper.FooKeepsFoobar` | scripts/strip-guarded-lines.py:50-57 | the failing case on the default markers |
| `GuardStripper.StripGivesPlainSubsequence` | scripts/strip-guarded-lines.py:69-84 | on any lines the output is a subsequence of the input without marker lines |
| `GuardStripper.StripIsIdempotent` | scripts/strip-guarded-lines.py:60-84 | stripping again with any list of names changes nothing |
| `GuardStripper.MoreNamesKeepMore` | scripts/strip-guarded-lines.py:60-84 | listing more names gives a supersequence whenever both runs complete |
| `GuardStripper.CompletesIffNested` | scripts/strip-guarded-lines.py:73-79 | on any lines and with any markers a run completes if and only if no prefix closes more blocks than it opens and every closing line starts with the closing marker of the guard found in the opening line it matches |
| `GuardStripper.CompletesIffBalanced` | scripts/strip-guarded-lines.py:73-79 | with a nameless closing marker, as by default, only the first of the two conditions remains |
| `LineWrap.SplitLine` | scripts/templates/helper.py:598-631 | the loop computes the specified lines |
| `LineWrap.GroupsOfWord` | scripts/templates/helper.py:615-616 | what the two substitutions of the newline pattern give, for any number of newlines |
| `LineWrap.NewlineEndsLine` | scripts/templates/helper.py:614-621 | a word with one newline ends the line after the part before it and starts the next line with the part after it |
| `LineWrap.WrapBySegments` | scripts/templates/helper.py:598-631 | the lines of any text, in terms of the segments between its newlines: greedy groups, except that the last word before a newline always stays on the line |
| `LineWrap.WidthIff` | scripts/templates/helper.py:598-631 | for every text and width all lines are within the width, as documented, if and only if every word fits and the last word before a newline takes no line of its own in a greedy wrapping of its segment |
| `LineWrap.NewlineOverflows` | scripts/templates/helper.py:598-621 | the documented width is exceeded by two fitting words before a newline |
| `LineWrap.WordsKeptIff` | scripts/templates/helper.py:607-631 | the sequence of non-empty words is preserved if and only if every word has at most one non-empty piece after its first newline |
| `LineWrap.SecondNewlineJoinsWords` | scripts/templates/helper.py:615-621 | the second and third piece of a word with two newlines become one word |
| `LineWrap.WrapWidth` | scripts/templates/helper.py:622-627 | without newlines every line is within the width, empty, or a single over-long word |
| `LineWrap.StepsAreGreedy` | scripts/templates/helper.py:613-631 | without newlines the loop puts the greedy groups of words on the lines |
| `LineWrap.LaterStartNoWorse` | scripts/templates/helper.py:622-627 | a line in progress that starts later never needs more lines |
| `LineWrap.WrapIsOptimal` | scripts/templates/helper.py:598-631 | no way of breaking a newline-free text into lines within the width needs fewer lines |
| `LineWrap.WrapIsBreaking` | scripts/templates/helper.py:598-631 | when every word fits, the output is itself such a breaking of the words in order |
| `RefCounting.RefCount.constructor` | source/common/ur_ref_count.hpp:20 | the initial count |
| `RefCounting.RefCount.GetCount` | source/common/ur_ref_count.hpp:24 | reads the count |
| `RefCounting.RefCount.Retain` | source/common/ur_ref_count.hpp:25 | increments modulo 2^32 and returns the new count |
| `RefCounting.RefCount.Release` | source/common/ur_ref_count.hpp:26 | decrements modulo 2^32 and returns true exactly from a count of one |
| `RefCounting.RefCount.Reset` | source/common/ur_ref_count.hpp:27 | sets the count |
| `RefCounting.CountIsReferences` | source/common/ur_ref_count.hpp:24-27 | in every interleaving of any number of threads the count is the number of outstanding references modulo 2^32 |
| `RefCounting.ReleaseReturns` | source/common/ur_ref_count.hpp:26 | with any number of references, a release returns true exactly when a multiple of 2^32 remains |
| `RefCounting.SafeExactlyUpToModulus` | source/common/ur_ref_count.hpp:24-30 | releases tell the last reference in all interleavings with at most a given number of references if and only if that number is at most 2^32 |
| `RefCounting.OneTrueReleasePerLifetime` | source/common/ur_ref_count.hpp:25-27 | every lifetime, opened initially or by a reset, is closed by exactly one release that returns true, and is open exactly while references are outstanding |
| `RefCounting.NothingAfterTheLast` | source/common/ur_ref_count.hpp:26-27 | after a release that returned true no thread holds a reference and only a reset can follow |
| `RefCounting.TrueReleaseIsLast` | source/common/ur_ref_count.hpp:25-26 | between resets at most one release returns true, and it is the last step |
| `PoolManager.SameIsEquivalenceRespectedByHash` | source/common/ur_pool_manager.hpp:76-107 | descriptor equality is an equivalence, and equal descriptors have equal hashes |
| `PoolManager.Manager.constructor` | source/common/ur_pool_manager.hpp:162-167 | an empty index |
| `PoolManager.Manager.Find` | source/common/ur_pool_manager.hpp:190-198 | searching only the bucket of the hash agrees with a linear search by `==` |
| `PoolManager.Manager.GetPool` | source/common/ur_pool_manager.hpp:190-198 | after any sequence of adds, rejected ones included, the bucketed lookup finds the pool first added under an equal descriptor |
| `PoolManager.Manager.AddPool` | source/common/ur_pool_manager.hpp:179-188 | succeeds exactly when no earlier add had an equal descriptor; a rejected add changes nothing |
| `PoolManager.Manager.Rehash` | source/common/ur_pool_manager.hpp:160-162 | changing the number of buckets at any time leaves the association list as it is |
| `PoolManager.Create` | source/common/ur_pool_manager.hpp:165-177 | succeeds exactly when the given descriptors are pairwise unequal; otherwise the result is an empty manager |
| `PoolManager.LookupFindsFirstAdded` | source/common/ur_pool_manager.hpp:179-198 | searching the accepted adds is the same as searching all adds, in order |
| `PoolManager.CreateFromDevices` | source/common/ur_pool_manager.hpp:117-153 | the host descriptor and three descriptors per device, 3n + 1 in all |
| `PoolManager.WrittenOut` | source/common/ur_pool_manager.hpp:117-153 | the descriptors, field by field |
| `PoolManager.ServedIff` | source/common/ur_pool_manager.hpp:83-198 | exactly which requests find a pool once the descriptors of all devices are added |
| `PoolManager.HostFindsFirst` | source/common/ur_pool_manager.hpp:121-124 | a request for host memory finds the first pool |
| `PoolManager.DescriptorsDifferIffNativesDo` | source/common/ur_pool_manager.hpp:83-153 | those descriptors are pairwise unequal if and only if the native handles are pairwise distinct |
| `PoolManager.SubDeviceSharesRootPool` | source/common/ur_pool_manager.hpp:83-198 | among the adds for all devices, the first that equals a request for a sub-device is its root's, for device, shared and read-only shared memory, in any context |
| `PoolManager.SubDevicePools` | source/common/ur_pool_manager.hpp:117-198 | a manager to which the pools of all devices are added serves host requests from the first pool, and a sub-device's requests for device, shared and read-only shared memory from its root device's pools |
| `PoolManager.ManagerForDevices` | source/common/ur_pool_manager.hpp:117-188 | the manager that results from these adds |
| `PoolManager.Manager.AddAll` | source/common/ur_pool_manager.hpp:179-188 | any number of adds extends the history of the manager |
| `Enums.Preprocess` | scripts/parse_specs.py:26-45 | the loop fills in the specified texts or fails as specified |
| `Enums.StepFailsIff` | scripts/parse_specs.py:38-44 | exactly which values make the numbering fail, and that version macros are passed over |
| `Enums.ExplicitKept` | scripts/parse_specs.py:38-44 | explicit values are kept as they are written |
| `Enums.FilledReadsBack` | scripts/parse_specs.py:39-44 | the text filled in for a missing value reads back as the running number, except a negative one in hexadecimal mode |
| `Enums.VersionMacroValue` | scripts/parse_specs.py:69-72 | a version macro has the major version in the upper and the minor version in the lower half |
| `Enums.NumberingAgreesIff` | scripts/parse_specs.py:26-80 | for every enum of decimal and hexadecimal numerals the filled texts read back as C's numbering if and only if no harmful decimal occurs and no numeral with a leading zero is eight or more |
| `Enums.OneBaseAgrees` | scripts/parse_specs.py:26-80 | when the explicit values are all decimal or all hexadecimal, only the condition on leading zeros remains |
| `Enums.MixedBasesDisagree` | scripts/parse_specs.py:38-41 | a concrete enum of mixed bases that is numbered differently from C |
| `Enums.ReadLikeC` | scripts/parse_specs.py:66-80 | an explicit numeral is read as C reads it if and only if it has no leading zero or is below eight |
| `Enums.ReaderFollowsC` | scripts/parse_specs.py:66-80 | without an octal surprise an enumerator, with or without a value, is read as C numbers it |
| `Enums.OctalDisagrees` | scripts/parse_specs.py:66-80 | 010 is numbered differently from C |
| `Enums.PreprocessFlags` | scripts/parse_specs.py:32-35 | the loop for flags computes the specified texts |
| `Enums.FlagsFollowOn` | scripts/parse_specs.py:34-35 | a flag without a value is the bit after the previous flag, and explicit values are kept |
| `Enums.NoBitCount` | scripts/templates/helper.py:304-309 | where there is no number the bit count is 0 |
| `Enums.ValidateEtors` | scripts/parse_specs.py:285-298 | the loop accepts exactly the specified lists of values, for flags and for other enums |
| `Enums.FlagsAcceptedIff` | scripts/parse_specs.py:285-298 | a flags enum is accepted if and only if every value is a BIT macro for one of the bits 0 to 30 |
| `Enums.NumeralsAcceptedIff` | scripts/parse_specs.py:285-298 | any other enum of numerals is accepted if and only if C's numbering stays below 0x7fffffff |
| `Enums.AcceptedFlagIsLowBit` | scripts/parse_specs.py:73-298 | a BIT macro is accepted if and only if it is one of the bits 0 to 30 |
| `Enums.FlagWordIsValue` | scripts/parse_specs.py:73-74 | the 32-bit word of an accepted flag has the value that validation sees |
| `Enums.ComplementValue` | scripts/parse_specs.py:786 | the complement is the one of 32 bits |
| `Enums.GenerateFlagsMask` | scripts/parse_specs.py:765-786 | the loop computes the complement of the or of all flags |
| `Enums.MaskAcceptsUnions` | scripts/parse_specs.py:960-969 | `MASK & v` is zero if and only if `v` is the union of some declared flags |
| `Enums.MaxIndex` | scripts/parse_specs.py:766-780 | the first index of the largest value, or -1 exactly when no value exceeds -1 |
| `Enums.MaxEtor` | scripts/parse_specs.py:788 | the enumerator named as maximum is the largest if and only if some value is not negative or the last one is the largest; an empty enum has none |
| `Enums.RefreshMeta` | scripts/parse_specs.py:1066-1074 | the refresh of the meta-data fails exactly for an enum without enumerators, which has no maximum |
| `Returns.GenerateReturns` | scripts/parse_specs.py:891-1018 | the loops over parameters, members and the specification's own returns compute the list accumulated from the specified conditions, or fail on an unknown structure |
| `Returns.AppendOne` | scripts/parse_specs.py:903-908 | the appending helper |
| `Returns.NullPointerCheckIff` | scripts/parse_specs.py:910-1005 | a null-pointer condition is given for a place if and only if it is a pointer, an array or a function pointer that is not optional, or the specification says so |
| `Returns.NullHandleCheckIff` | scripts/parse_specs.py:927-936 | a null-handle condition is given for a place if and only if it is a handle that is not optional, not a pointer and not reached through an IPC or native handle, or the specification says so |
| `Returns.EnumerationCheckIff` | scripts/parse_specs.py:938-975 | which enumerations are checked under which code and with which text: structure types for equality, flags with a mask against it, others against their maximum |
| `Returns.SiteIff` | scripts/parse_specs.py:978-1005 | the places that are checked are the parameters that are not exempt and the members of the descriptors and properties among them |
| `Returns.SitesFailIff` | scripts/parse_specs.py:992-995 | the pass fails exactly for a checked descriptor or properties parameter of an unknown structure |
| `Returns.UserCallIff` | scripts/parse_specs.py:1007-1014 | what the specification's own returns give |
| `Returns.VisitingOrder` | scripts/parse_specs.py:978-1014 | conditions of earlier parameters come before those of later ones, and those of the specification last |
| `Returns.OrderAtParameter` | scripts/parse_specs.py:982-1005 | a parameter comes before its members, and a check for null before that of an enumeration |
| `Returns.FindIndex` | scripts/parse_specs.py:904 | the first entry of a code that has conditions, or the end of the list |
| `Returns.AccumulatedConditions` | scripts/parse_specs.py:903-908 | at most one entry per code has conditions, and they are exactly the given ones, each once, in order of first occurrence |
| `Returns.AccumulatedInOrder` | scripts/parse_specs.py:903-1017 | the entries with conditions are one per code, in the order in which codes are first given a condition, each with its conditions in the order of first occurrence |
| `Returns.EachConditionOnce` | scripts/parse_specs.py:903-1017 | every given condition is recorded exactly once, and nothing else is |
| `Returns.DefaultsComeFirst` | scripts/parse_specs.py:895-908 | the four default codes come first and never receive a condition |
| `Returns.MakeParamChecks` | scripts/templates/helper.py:1220-1245 | the dictionary of checks holds, per name, the substituted checks of all codes that become that name, then the bounds checks, and no empty list |
| `Returns.BoundsListed` | scripts/templates/helper.py:1239-1243 | bounds checks are listed under `boundsError`, after any other checks of that name |
| `Returns.ExtractedChecks` | scripts/templates/helper.py:1228-1237 | the checks extracted under a name are exactly the back-quoted conditions given for the codes that become it, with tags substituted, in order of first occurrence code by code |
| `Returns.ExtractedChecksOfCode` | scripts/templates/helper.py:1228-1237 | for a code that shares its name with no other, exactly its own back-quoted conditions in order of first occurrence |
| `Returns.NoDuplicateChecksIff` | scripts/templates/helper.py:1228-1237 | the checks under a name are pairwise different if and only if no two different given conditions for it have the same text after substitution |
| `Returns.NoDuplicatesUnlessBothSpellings` | scripts/templates/helper.py:1233 | when substitution keeps texts apart, if and only if no condition is given both with and without a final newline |
| `Returns.TagsMakeDuplicates` | scripts/templates/helper.py:1237 | two conditions whose texts become equal by substitution give the same check twice |
| `Versions.VersionsAreTotallyOrdered` | scripts/version.py:25-36 | the comparison is a total order |
| `Versions.MajorDecides` | scripts/version.py:29-36 | the major number decides, and only among equal ones the minor number |
| `Versions.ValidateVersions` | scripts/parse_specs.py:368-508 | the loops accept exactly the lists whose versions do not decrease |
| `Versions.FilterVersion` | scripts/parse_specs.py:654-696 | the filter drops a newer document and else keeps the specified items, with their descriptions resolved |
| `Versions.FilterDesc` | scripts/parse_specs.py:660-665 | a description per version becomes the last admitted text, or stays when none is admitted |
| `Versions.NewestTextChosen` | scripts/parse_specs.py:660-665 | of texts in increasing order that is the one of the newest admitted version |
| `Versions.DescriptionStays` | scripts/parse_specs.py:660-665 | a description stays when it is a single text or none of its texts is admitted |
| `Versions.PrefixIff` | scripts/parse_specs.py:412-696 | for every accepted list a prefix is kept at every version if and only if no item without a version comes before one below the default |
| `Versions.OlderIsPrefixOfNewerIff` | scripts/parse_specs.py:684-696 | for every accepted list, the items kept at an older version are always a prefix of those kept at a newer one if and only if the same condition holds |
| `Versions.OlderIsPrefixOfNewer` | scripts/parse_specs.py:684-696 | under the condition, for any two versions |
| `Versions.UsualDocuments` | scripts/parse_specs.py:368-696 | the condition holds when all items carry a version or the document has the default one |
| `Versions.OvertakenDefault` | scripts/parse_specs.py:671-696 | a concrete accepted list for which it fails |
| `DdiTables.GenerateMeta` | scripts/parse_specs.py:725-855 | the pass over the documents computes the specified class index, inherited handles included, or fails on a duplicate, an unknown base or a base without handles |
| `DdiTables.ClassIndexFacts` | scripts/parse_specs.py:737-754 | the finished index knows the class of every document, each class once, and no two documents of a class clash |
| `DdiTables.IndexingSucceedsIff` | scripts/parse_specs.py:734-757 | without base classes indexing succeeds if and only if no two documents of a class share kind and bare name |
| `DdiTables.MemberStep` | scripts/parse_specs.py:737-757 | a document is rejected exactly when its class has a member of its kind and name; else it becomes one |
| `DdiTables.InheritIff` | scripts/parse_specs.py:824-836 | when a class can inherit from its base, and which handles it inherits |
| `DdiTables.ClassKnownIff` | scripts/parse_specs.py:737-855 | a class is known exactly when a document belongs to it, declares it or names it as owner |
| `DdiTables.DeclaredOrdinal` | scripts/parse_specs.py:818-822 | the ordinal of a class is that of the last document that declares it |
| `DdiTables.UndeclaredOrdinal` | scripts/parse_specs.py:740-743 | an undeclared class has ordinal 0 if a member made it known and none if an owner entry did |
| `DdiTables.SortedIsPermutation` | scripts/parse_specs.py:1206 | sorting the files by ordinal after indexing moves objects but neither loses nor repeats one |
| `DdiTables.ClassFunctions` | scripts/templates/helper.py:1270-1298 | the regular and the experimental functions of a class, each stably sorted by key |
| `DdiTables.GetPfnTables` | scripts/templates/helper.py:1315-1418 | the tables as specified, or the specified error |
| `DdiTables.FindGuard` | scripts/templates/helper.py:1402-1414 | the scan of a table's functions for their guard |
| `DdiTables.SetGuards` | scripts/templates/helper.py:1401-1416 | the loop that checks and sets the guards of all tables |
| `DdiTables.TableIsStablySorted` | scripts/templates/helper.py:1288-1326 | a table is sorted by key, stable with respect to the specification, and holds exactly the public functions of its class and sort |
| `DdiTables.SlotsAreFunctions` | scripts/templates/helper.py:1320-1399 | the slots of all tables together are exactly the public functions of the classes, with multiplicity |
| `DdiTables.UniqueSlot` | scripts/templates/helper.py:1315-1418 | with documents indexed in the order of the files and tables built in the order of their ordinals, every public function with a class sits in exactly one slot of exactly one table, the one of its class and sort |
| `DdiTables.SlotHolds` | scripts/templates/helper.py:1315-1418 | conversely a slot holds a function of the table's class and sort that is not loader-only |
| `DdiTables.TablesInOrder` | scripts/templates/helper.py:1321-1399 | tables follow the order of their classes, the regular table of a class first |
| `DdiTables.BuiltInOrder` | scripts/templates/helper.py:1321-1399 | finished tables follow the ordinals of the files that declare their classes, the regular table of a class first |
| `DdiTables.SlotsInOrder` | scripts/templates/helper.py:1288-1297 | within a finished table functions follow major version times 10000 plus ordinal |
| `DdiTables.ClassesByOrdinal` | scripts/templates/helper.py:1321 | classes are visited by increasing ordinal |
| `DdiTables.ScanGuardFacts` | scripts/templates/helper.py:1402-1414 | the scan succeeds if and only if all guards agree, and then finds their common value |
| `DdiTables.TableGuard` | scripts/templates/helper.py:1401-1416 | in a finished table all guards agree, and it has a guard if and only if all its functions do |
| `DdiTables.BuildingSucceedsIff` | scripts/templates/helper.py:1315-1418 | building succeeds if and only if every class has an ordinal and the guards of every table agree |
| `StableSort.StableSortUnique` | scripts/templates/helper.py:1288-1297 | sortedness and stability determine the result of a sort |
| `StableSort.FilterSort` | scripts/templates/helper.py:1323-1326 | filtering a stable sort is the same as sorting what the filter leaves |

## Left out

- Registry.Load: entries of the registry file always have explicit values, as the generator writes them; a hexadecimal or macro value, which the reader accepts but the pass rejects, counts as a failing read. Of the other validation of the file only the limit on values is modelled.
- Registry: the snake-case spelling of a function name is an input (`key`), so it need not be injective; the version filter on the enum itself is not applied.
- Registry.Next: a run that fails elsewhere (over the structures, or while writing) leaves the file as a run without functions does and is not told apart from it.
- StructureTypes: values are integers and names are bare; the texts and prefixes are those of `Registry`.
- Numerals.ParseInt: non-ASCII digits and white space are not recognised.
- Bundle: addresses do not wrap around, and integers are little-endian.
- GuardStripper: markers are literal text with the name, if any, at the end; regular-expression operators in markers or names are not interpreted.
- GuardStripper.StripOnTree: the markers must be separated, which excludes marker pairs where one occurs inside or across the other; an opening line with text after the name must not repeat a marker there, and listed names must then be words.
- RefCounting: a single atomic step per operation, without weaker memory orders; the caller's choice of when to reset is restricted to a count without references.
- PoolManager: the native-handle query does not fail and the hash combiner is an arbitrary function; ownership and destruction of pools, logging and iteration over pools are not modelled.
- Enums: BIT and version macros are recognised by construction and not by pattern; typed enumerators, enum extensions, the names of enumerators and the maximum that is recorded for a flags enum are not modelled.
- Enums.NumberingAgreesIff: the numerals are those that both Python and C accept, so without underscores and suffixes.
- Returns.GenerateReturns: the traits of a type (pointer, handle, descriptor and so on) and the rewriting of a type's name are inputs, not patterns on its text.
- Returns.MakeParamChecks: the substitution of tags is an arbitrary function and the texts of the bounds checks are inputs.
- Versions: parsing of version strings and the version loop of enums.
- DdiTables.GenerateMeta: the name of a document without the arguments of a macro is an input, and so is the ordinal of a header; members, owners' lists and children of a class are not recorded.
- DdiTables.IndexingSucceedsIff: requires documents without base classes; with them, success is stated document by document (`MemberStep`, `InheritIff`).
- DdiTables.GetPfnTables: names, types and exports of tables, which are derived from the class name, are not modelled.
- DdiTables.TableGuard: requires guards that pass validation, which are not empty; an empty guard followed by another one would not be reported.
- YAML and file handling, Mako templates, documentation generation, git and license scripts, the API stubs and generated headers, the loader, backtraces and the latency tracker: input/output, generated code or foreign libraries.
