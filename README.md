# A verified model of twelve building blocks of the Rin game engine

This project models, in Dafny, twelve self-contained pieces of the Rin game
engine (C#) and proves what each of them promises:

- **Allocator helpers** (`AllocatorHelpers`): the power-of-two, page and
  alignment arithmetic of the Vulkan sub-allocator, in explicit 32- and 64-bit
  two's complement. Also the buffer/image granularity-conflict table, the
  exact and leftmost binary searches, sorted insertion, `FindIndex` and
  `Validate`.
- **Pooled list** (`PoolList`): `PoolListStruct`, a list of pooled objects
  whose first `Count` slots are in use.
- **Transaction-tagged store** (`ListStores`): `ListStore`, the loaded
  values plus the unsaved values tagged by transaction.
- **Merged content index** (`ObjectDatabaseIndex`):
  `ObjectDatabaseContentIndexMap`, the url → `ObjectId` map that merges the
  indexes of the loaded backends.
- **Content index text format** (`ContentIndex`): the line reader of
  `ContentIndexMap` with its two regular expressions, the writer, and the
  merged view of unsaved and loaded entries.
- **Property container** (`PropertyContainers`): `PropertyContainer` as a
  dictionary with lazy default values and change callbacks.
- **YAML nodes** (`YamlNodes`): null-safe equality, 32-bit hash combining,
  tag-only equality and hash, `Load`, `Save` with anchors written once, and
  the `ParseNode` dispatch.
- **Simulated input source** (`InputSourcesSimulated`): four device lists
  and the registration set of `InputSourceSimulated`.
- **ObjectId serializer** (`ObjectIds`): a presence flag, then `HashSize`
  bytes.
- **JSON event emitter** (`JsonEventEmitters`): the style rules of
  `JsonEventEmitter`.
- **YAML version** (`YamlVersions`): `Version`.
- **YAML version directive token** (`VersionDirectives`): `VersionDirective`.

Shared modules:
- `Wrappers` holds `Option`, `Result` and `Outcome`. A C# exception is
  modelled as an `Err`/`Fail` value.
- `Numerics` holds the fixed-width integer arithmetic the C# code relies on:
  - `Wrap` for unchecked wrap-around;
  - `ToUnsigned` for two's complement;
  - `Xor32` for `^` on `int`;
  - `DivTrunc` for division that truncates toward zero;
  - the bit lengths and powers of two the proofs use.

Imperative parts are classes whose methods change their fields. Each such
method is proved against a specification function, and the properties are
proved about that function. Examples:
- `ReadEntries` equals `ReadAll` over the lines of the text;
- `RemoveUnsaved` equals `RemoveTransaction`;
- `Merge` equals `MergeAll`.

Where the code and what it evidently means to do differ, the model follows
the code and states the intended behaviour beside it (see "## Findings"):
- `BinarySearch_Leftmost` tests the last comparison computed rather than the
  element at `begin`.
- `BinarySearch_Leftmost` with a comparison function reads `list[begin]`
  even when `begin` is past the end.
- `PropertyContainer.Remove` reports `true` for a `KeepValue` key that was
  never stored, because its first `Get` stores the default.

## Model

| member | source | states |
|---|---|---|
| AllocatorHelpers.IsPow2 | Platform/Vulkan/Allocator/Helpers.cs:35-37 | true exactly when the unsigned reading of the value is a power of two; for a positive value, exactly when the value itself is one |
| AllocatorHelpers.NextPow2 | Platform/Vulkan/Allocator/Helpers.cs:39-53 | the result stays within the integer width, shift-count masking included |
| AllocatorHelpers.NextPow2IsSmallestPowerOfTwo | Platform/Vulkan/Allocator/Helpers.cs:39-53 | for 0 < v <= 2^30 (int) or 2^62 (long): the result is a power of two >= v, no power of two >= v is smaller, and a power of two is returned unchanged |
| AllocatorHelpers.NextPow2Idempotent | Platform/Vulkan/Allocator/Helpers.cs:39-53 | for every value of the type, applying NextPow2 twice gives what applying it once gives, since each result (1, a power of two, or the sign bit alone) has exactly one bit set |
| AllocatorHelpers.PrevPow | Platform/Vulkan/Allocator/Helpers.cs:55-57 | the result stays within the integer width |
| AllocatorHelpers.PrevPowIsLargestPowerOfTwo | Platform/Vulkan/Allocator/Helpers.cs:55-57 | for v > 0: the result is a power of two with result <= v < 2·result, and every power of two <= v is <= the result |
| AllocatorHelpers.PrevPowOfZeroIsMostNegative | Platform/Vulkan/Allocator/Helpers.cs:55-57 | PrevPow(0) is the most negative value of the width, since the shift count 31 (63) is not masked away |
| AllocatorHelpers.BlocksOnSamePage | Platform/Vulkan/Allocator/Helpers.cs:59-67 | the masked comparison on any longs, with wrap-around; its meaning is stated by BlocksOnSamePageIff |
| AllocatorHelpers.BlocksOnSamePageIff | Platform/Vulkan/Allocator/Helpers.cs:59-67 | for a power-of-two page size and block A ending at or before block B: same page iff (offA + sizeA − 1) / page == offB / page |
| AllocatorHelpers.AlignUp | Platform/Vulkan/Allocator/Helpers.cs:98 | fails with DivideByZero iff the alignment is 0, with Overflow iff the division is long.MinValue / -1 (alignment -1 and value long.MinValue + 2); otherwise the result stays within 64 bits |
| AllocatorHelpers.AlignUpIsSmallestMultiple | Platform/Vulkan/Allocator/Helpers.cs:98 | for v >= 0, a > 0 and v + a − 1 < 2^63 (the sum does not wrap): no exception, and a multiple of a with v <= result < v + a, hence the smallest multiple >= v |
| AllocatorHelpers.AlignDown | Platform/Vulkan/Allocator/Helpers.cs:100-101 | fails with DivideByZero iff the alignment is 0; otherwise the result stays within 64 bits |
| AllocatorHelpers.AlignDownIsLargestMultiple | Platform/Vulkan/Allocator/Helpers.cs:100-101 | for 0 <= v < 2^63 and 0 < a < 2^63: no exception, and a multiple of a with result <= v < result + a, hence the largest multiple <= v |
| AllocatorHelpers.IsBufferImageGranularityConflict | Platform/Vulkan/Allocator/Helpers.cs:69-96 | conflict iff neither type is Free and: one is Unknown; or Buffer meets Image_Unknown or Image_Optimal; or Image_Unknown meets an image type; or Image_Linear meets Image_Optimal |
| AllocatorHelpers.GranularityConflictSymmetric | Platform/Vulkan/Allocator/Helpers.cs:69-96 | swapping the two types never changes the answer |
| AllocatorHelpers.BinarySearch | Platform/Vulkan/Allocator/Helpers.cs:103-168 | a non-negative result indexes an element that compares equal; for a negative result r, ~r is in range, and on a sorted list every element before ~r compares less and every one from ~r on compares greater |
| AllocatorHelpers.LeftmostLoopFindsFirstNotLess | Platform/Vulkan/Allocator/Helpers.cs:176-183 | on a sorted list the loop ends at the first index whose element does not compare less |
| AllocatorHelpers.LeftmostSingle | Platform/Vulkan/Allocator/Helpers.cs:170-187 | the search as written, as a function; its results are stated by LeftmostSingleResult and LeftmostSingleMissesMatch |
| AllocatorHelpers.LeftmostSingleResult | Platform/Vulkan/Allocator/Helpers.cs:170-187 | a non-negative result indexes a match; for a negative result r, ~r is in range, and on a sorted list it is the first element that does not compare less |
| AllocatorHelpers.LeftmostSingleMissesMatch | Platform/Vulkan/Allocator/Helpers.cs:170-187 | on the sorted list [-1, 0] with the identity comparison, the result is ~1 although index 1 matches |
| AllocatorHelpers.BinarySearchLeftmost | Platform/Vulkan/Allocator/Helpers.cs:170-187 | the loop computes LeftmostSingle |
| AllocatorHelpers.LeftmostBy | Platform/Vulkan/Allocator/Helpers.cs:189-205 | the search as written, as a function, failing where `list[begin]` is out of range; its results are stated by LeftmostByFailsPastTheEnd |
| AllocatorHelpers.LeftmostByFailsPastTheEnd | Platform/Vulkan/Allocator/Helpers.cs:189-205 | on a sorted list the search fails (index out of range) iff every element compares less; otherwise it stops at the first element that does not compare less, non-negative iff that one matches |
| AllocatorHelpers.BinarySearchLeftmostBy | Platform/Vulkan/Allocator/Helpers.cs:189-205 | the loop computes LeftmostBy, the out-of-range access included |
| AllocatorHelpers.LeftmostCheckedIsLeftmost | Platform/Vulkan/Allocator/Helpers.cs:170-205 | the corrected search on a sorted list: non-negative iff some element matches, and then it is the first match; otherwise ~r is the insertion point |
| AllocatorHelpers.SortedIsSortedAgainst | Platform/Vulkan/Allocator/Helpers.cs:103-124 | a list sorted by a total preorder is sorted against any key, as the exact binary search expects |
| AllocatorHelpers.InsertKeepsSorted | Platform/Vulkan/Allocator/Helpers.cs:207-229 | inserting at the point the search returns keeps a sorted list sorted |
| AllocatorHelpers.InsertSorted | Platform/Vulkan/Allocator/Helpers.cs:207-229 | the list grows by the value at the returned index, every other element keeps its relative order, and a sorted list stays sorted |
| AllocatorHelpers.SuballocationItemSizeLess | Platform/Vulkan/Allocator/Helpers.cs:27-28 | negative, zero or positive exactly as the first size is less than, equal to or greater than the second |
| AllocatorHelpers.SizeComparisonIsTotalPreorder | Platform/Vulkan/Allocator/Helpers.cs:27-28 | the size comparison is antisymmetric in sign and transitive |
| AllocatorHelpers.FindIndex | Platform/Vulkan/Allocator/Helpers.cs:231-239 | the first index whose element matches, or -1 when none does |
| AllocatorHelpers.Validate | Platform/Vulkan/Allocator/Helpers.cs:251-255 | passes iff the assertion holds |
| PoolList.RotateToEndIsPermutation | Rin.Core.Common/Collections/PoolListStruct.cs:105-112 | moving the removed item to the end keeps length and multiset, keeps earlier items in place, and shifts later items left by one |
| PoolList.PoolListStruct.Items | Rin.Core.Common/Collections/PoolListStruct.cs:129 | enumeration yields exactly the first Count allocated items, in order |
| PoolList.PoolListStruct.Clear | Rin.Core.Common/Collections/PoolListStruct.cs:60-62 | Count becomes 0 and the allocated objects are untouched |
| PoolList.PoolListStruct.Reset | Rin.Core.Common/Collections/PoolListStruct.cs:67-74 | Count becomes 0 and the allocated list is emptied |
| PoolList.PoolListStruct.Add | Rin.Core.Common/Collections/PoolListStruct.cs:80-91 | Count grows by one; a spare allocated object is reused without calling the factory, otherwise the factory is called once and its object appended |
| PoolList.PoolListStruct.IndexOf | Rin.Core.Common/Collections/PoolListStruct.cs:98 | the first position among all allocated objects, or -1 iff the item is absent |
| PoolList.PoolListStruct.RemoveAt | Rin.Core.Common/Collections/PoolListStruct.cs:100-113 | an index outside [0, Count) is refused and nothing changes; otherwise Count drops by one, the item moves last, and the in-use items lose exactly that item |
| PoolList.PoolListStruct.Remove | Rin.Core.Common/Collections/PoolListStruct.cs:120-127 | an item never allocated is refused; an item in use is removed as by RemoveAt at its first index; an allocated item not in use is refused by RemoveAt |
| ListStores.RemoveTransaction | Vixen.Core.Serialization/IO/ListStore.cs:40-54 | the early-exit walk as a function; what it removes is stated by RemoveTransactionRemovesExactlyTx |
| ListStores.Pending | Vixen.Core.Serialization/IO/ListStore.cs:60-76 | the pending walk as a function; what it returns is stated by PendingIsTaggedValues |
| ListStores.RemoveTransactionRemovesExactlyTx | Vixen.Core.Serialization/IO/ListStore.cs:40-54 | with nondecreasing tags, the early-exit walk removes exactly the entries of the transaction, keeping the others in order |
| ListStores.WithoutTransactionKeepsOrder | Vixen.Core.Serialization/IO/ListStore.cs:40-54 | removal keeps the tags nondecreasing |
| ListStores.PendingIsTaggedValues | Vixen.Core.Serialization/IO/ListStore.cs:60-76 | with nondecreasing tags, the pending walk returns exactly the values tagged with the transaction, in order |
| ListStores.ListStore.GetValues | Vixen.Core.Serialization/IO/ListStore.cs:16-30 | a fresh array of the loaded values followed by the unsaved values; its length is the sum of the two counts |
| ListStores.ListStore.AddUnsaved | Vixen.Core.Serialization/IO/ListStore.cs:32-34 | exactly one entry is appended at the tail with the given transaction; tags stay nondecreasing when it is the latest |
| ListStores.ListStore.RemoveUnsavedItem | Vixen.Core.Serialization/IO/ListStore.cs:36-38 | the item is ignored and the whole transaction is removed |
| ListStores.ListStore.RemoveUnsaved | Vixen.Core.Serialization/IO/ListStore.cs:40-54 | the walk computes RemoveTransaction; with nondecreasing tags this removes exactly the transaction's entries; loaded values are untouched |
| ListStores.ListStore.AddLoaded | Vixen.Core.Serialization/IO/ListStore.cs:56-58 | appends to the loaded values only |
| ListStores.ListStore.GetPendingItems | Vixen.Core.Serialization/IO/ListStore.cs:60-76 | the walk computes Pending; with nondecreasing tags these are exactly the transaction's values, in order |
| ObjectIds.Encode | Rin.Core/Storage/ObjectId.Serializer.cs:12-19 | a flag byte equal to (id != Empty), then the HashSize hash bytes iff the flag is set |
| ObjectIds.Decode | Rin.Core/Storage/ObjectId.Serializer.cs:21-28 | a successful read yields a well-formed id and consumes one flag byte plus HashSize bytes iff the flag is set |
| ObjectIds.DecodeEncode | Rin.Core/Storage/ObjectId.Serializer.cs:11-30 | reading back what was written, wherever it sits in a stream, gives the same id and consumes exactly the bytes written |
| ObjectIds.DecodeFlag | Rin.Core/Storage/ObjectId.Serializer.cs:21-28 | a zero flag reads as Empty and nothing more; a set flag reads the next HashSize bytes, or fails when the stream ends first |
| ObjectIds.SerializeObjectId | Rin.Core/Storage/ObjectId.Serializer.cs:11-30 | in Serialize mode appends Encode(id); in Deserialize mode yields Decode of the stream at its position and advances past it |
| ObjectDatabaseIndex.MergeLastWins | Rin.Core.Serialization/Storage/ObjectDatabaseContentIndexMap.cs:44-50 | after merging, the keys are the old keys plus the merged ones, each merged key holds its last value in the sequence, and other keys are unchanged |
| ObjectDatabaseIndex.MergeDistinctIsOverride | Rin.Core.Serialization/Storage/ObjectDatabaseContentIndexMap.cs:36-50 | merging the pairs of a map is the map override |
| ObjectDatabaseIndex.ObjectDatabaseContentIndexMap.Get | Rin.Core.Serialization/Storage/ObjectDatabaseContentIndexMap.cs:16-20 | the stored id of a present url; an absent url fails |
| ObjectDatabaseIndex.ObjectDatabaseContentIndexMap.Set | Rin.Core.Serialization/Storage/ObjectDatabaseContentIndexMap.cs:21-29 | the value is stored, and written through to the writeable index when there is one |
| ObjectDatabaseIndex.ObjectDatabaseContentIndexMap.MergeFrom | Rin.Core.Serialization/Storage/ObjectDatabaseContentIndexMap.cs:36-38 | the map becomes the old map overridden by the other index |
| ObjectDatabaseIndex.ObjectDatabaseContentIndexMap.Merge | Rin.Core.Serialization/Storage/ObjectDatabaseContentIndexMap.cs:44-50 | the loop computes MergeAll: pairs written in order, the last pair for a key winning |
| ObjectDatabaseIndex.ObjectDatabaseContentIndexMap.Unmerge | Rin.Core.Serialization/Storage/ObjectDatabaseContentIndexMap.cs:56-62 | every listed key is removed regardless of its value; all other keys are unchanged |
| ObjectDatabaseIndex.ObjectDatabaseContentIndexMap.TryGetValue | Rin.Core.Serialization/Storage/ObjectDatabaseContentIndexMap.cs:64-68 | found iff the url is present, with its stored id; the default id otherwise |
| ObjectDatabaseIndex.ObjectDatabaseContentIndexMap.SearchValues | Rin.Core.Serialization/Storage/ObjectDatabaseContentIndexMap.cs:70-76 | exactly the stored pairs satisfying the predicate, each once |
| ObjectDatabaseIndex.ObjectDatabaseContentIndexMap.Contains | Rin.Core.Serialization/Storage/ObjectDatabaseContentIndexMap.cs:78-82 | true iff the url is present |
| ObjectDatabaseIndex.ObjectDatabaseContentIndexMap.GetMergedIdMap | Rin.Core.Serialization/Storage/ObjectDatabaseContentIndexMap.cs:84-88 | exactly the stored pairs, each key once |
| ContentIndex.TrimStart | Rin.Core.Serialization/Serialization/Contents/ContentIndexMap.cs:95 | the result is a suffix of the text that does not start with white space |
| ContentIndex.TrimStartDropsSpace | Rin.Core.Serialization/Serialization/Contents/ContentIndexMap.cs:95 | what TrimStart drops is all white space, so it keeps the longest such suffix |
| ContentIndex.TrimEnd | Rin.Core.Serialization/Serialization/Contents/ContentIndexMap.cs:95 | the result is a prefix of the text that does not end with white space |
| ContentIndex.TrimEndDropsSpace | Rin.Core.Serialization/Serialization/Contents/ContentIndexMap.cs:95 | what TrimEnd drops is all white space, so it keeps the longest such prefix |
| ContentIndex.Trim | Rin.Core.Serialization/Serialization/Contents/ContentIndexMap.cs:95 | the trimmed line neither starts nor ends with white space |
| ContentIndex.TrimKeepsSlice | Rin.Core.Serialization/Serialization/Contents/ContentIndexMap.cs:95 | the trimmed line is a slice of the text with only white space before and after it |
| ContentIndex.TrimOfTrimmed | Rin.Core.Serialization/Serialization/Contents/ContentIndexMap.cs:95 | trimming a line without white space at its ends changes nothing |
| ContentIndex.Lines | Rin.Core.Serialization/Serialization/Contents/ContentIndexMap.cs:92-94 | the lines the reader returns hold no line break |
| ContentIndex.LinesOfLine | Rin.Core.Serialization/Serialization/Contents/ContentIndexMap.cs:92-94 | a line followed by "\n" is read back as that line, then the rest |
| ContentIndex.LinesOfCrLfLine | Rin.Core.Serialization/Serialization/Contents/ContentIndexMap.cs:92-94 | a line followed by "\r\n" is read back as that line, then the rest: the pair is one line break |
| ContentIndex.LinesOfCrLine | Rin.Core.Serialization/Serialization/Contents/ContentIndexMap.cs:92-94 | a line followed by a "\r" that is not followed by "\n" is read back as that line, then the rest |
| ContentIndex.LinesOfFinalLine | Rin.Core.Serialization/Serialization/Contents/ContentIndexMap.cs:92-94 | a non-empty last line without a line break is read back as the one line |
| ContentIndex.LineReader.ReadLine | Rin.Core.Serialization/Serialization/Contents/ContentIndexMap.cs:94 | null at the end of the text; otherwise the text up to the next line break, then the position moves past "\n", "\r" or "\r\n" |
| ContentIndex.MatchShape | Rin.Core.Serialization/Serialization/Contents/ContentIndexMap.cs:10-11 | a match is the name, white space (a single character for the second pattern), then word characters to the end; for the first pattern the name does not end with white space |
| ContentIndex.SpacesThenWordMatches | Rin.Core.Serialization/Serialization/Contents/ContentIndexMap.cs:10 | a name without "\n" that does not end with white space, a run of white space and word characters match the first pattern with exactly those groups |
| ContentIndex.SpaceThenWordMatches | Rin.Core.Serialization/Serialization/Contents/ContentIndexMap.cs:11 | a name without "\n", one white-space character and word characters match the second pattern with exactly those groups |
| ContentIndex.ReadEntries | Rin.Core.Serialization/Serialization/Contents/ContentIndexMap.cs:91-131 | the loop computes ReadAll over the lines of the text: the entries in file order, or the error of the first refused line |
| ContentIndex.ParseEntry | Rin.Core.Serialization/Serialization/Contents/ContentIndexMap.cs:100-127 | the two regular expressions and TryParse on a trimmed line; what it accepts and refuses is stated by AcceptedLineShape, SeveralSpacesAreRefused, UnparsableIdIsRefused and ParseSingleSpaceLine |
| ContentIndex.ParseLine | Rin.Core.Serialization/Serialization/Contents/ContentIndexMap.cs:95-127 | one pass of the reading loop over a line; skipping is stated by BlankAndCommentLinesAreSkipped |
| ContentIndex.BlankAndCommentLinesAreSkipped | Rin.Core.Serialization/Serialization/Contents/ContentIndexMap.cs:95-98 | a line that is empty or starts with '#' after trimming adds no entry |
| ContentIndex.AcceptedLineShape | Rin.Core.Serialization/Serialization/Contents/ContentIndexMap.cs:100-127 | an accepted line is a non-empty name, exactly one white-space character and word characters that TryParse accepts, and the entry is that name and id |
| ContentIndex.SeveralSpacesAreRefused | Rin.Core.Serialization/Serialization/Contents/ContentIndexMap.cs:111-118 | more than one white-space character between name and id is refused as a name with spaces around it |
| ContentIndex.UnparsableIdIsRefused | Rin.Core.Serialization/Serialization/Contents/ContentIndexMap.cs:120-124 | an id text that TryParse refuses makes the line fail |
| ContentIndex.ParseSingleSpaceLine | Rin.Core.Serialization/Serialization/Contents/ContentIndexMap.cs:100-127 | a trimmed line both patterns match with equal groups becomes the entry (name, id), or fails on an unparsable id |
| ContentIndex.WriteEntry | Rin.Core.Serialization/Serialization/Contents/ContentIndexMap.cs:133-137 | appends exactly key, one blank, the id text and "\n" |
| ContentIndex.ParseWrittenLine | Rin.Core.Serialization/Serialization/Contents/ContentIndexMap.cs:107-137 | a written line whose key has no white space at its ends reads back as the same key and id |
| ContentIndex.ReadWrittenEntries | Rin.Core.Serialization/Serialization/Contents/ContentIndexMap.cs:91-137 | reading a text written entry by entry gives back exactly those entries, in order |
| ContentIndex.Untagged | Rin.Core.Serialization/Serialization/Contents/ContentIndexMap.cs:85 | the unsaved pairs without their transaction tags, one for one |
| ContentIndex.LoadedOnly | Rin.Core.Serialization/Serialization/Contents/ContentIndexMap.cs:86 | every pair it returns is a loaded pair with a key that is not unsaved, and every such loaded pair is returned; order and multiplicity are stated by LoadedOnlyIsOrderedFilter |
| ContentIndex.LoadedOnlyIsOrderedFilter | Rin.Core.Serialization/Serialization/Contents/ContentIndexMap.cs:86 | the order-preserving filter: one pair is kept iff its key is not unsaved, and the filter of a concatenation is the concatenation of the filters, so the kept pairs keep their order and their number of occurrences |
| ContentIndex.MergedIdMap | Rin.Core.Serialization/Serialization/Contents/ContentIndexMap.cs:82-89 | the unsaved pairs, then the loaded pairs whose key is not unsaved; its contents are stated by MergedIdMapOverrides and MergedIdMapDistinct |
| ContentIndex.MergedIdMapOverrides | Rin.Core.Serialization/Serialization/Contents/ContentIndexMap.cs:82-89 | every unsaved pair is in the merged view; every loaded pair whose key is not unsaved is in it; a merged pair with an unsaved key is the unsaved value, any other a loaded pair |
| ContentIndex.MergedIdMapDistinct | Rin.Core.Serialization/Serialization/Contents/ContentIndexMap.cs:82-89 | when neither side repeats a key, no key appears twice in the merged view |
| PropertyContainers.ArePropertyValuesEqual | Vixen.Core/PropertyContainer.cs:473-485 | reference identity for reference types other than string, Equals otherwise |
| PropertyContainers.PropertyValuesEqualIsReflexiveAndSymmetric | Vixen.Core/PropertyContainer.cs:473-485 | the comparison is reflexive and symmetric, and null equals only null |
| PropertyContainers.Updates | Vixen.Core/PropertyContainer.cs:439-451 | no callback when the values compare equal; otherwise the container event and the key callback, each once when present, in the given order |
| PropertyContainers.UpdatesOnlyOnChange | Vixen.Core/PropertyContainer.cs:439-451 | some callback runs iff the values differ and a listener exists |
| PropertyContainers.Lookup | Vixen.Core/PropertyContainer.cs:408-421 | the stored value of a stored key; otherwise its default, or null without one |
| PropertyContainers.LookupAfterStore | Vixen.Core/PropertyContainer.cs:393-458 | a stored value reads back as that value, and other keys keep theirs |
| PropertyContainers.PropertyContainer.ContainsKey | Vixen.Core/PropertyContainer.cs:117-138 | true iff the key is stored |
| PropertyContainers.PropertyContainer.GetNonRecursive | Vixen.Core/PropertyContainer.cs:463-471 | the stored value, else the default, else null |
| PropertyContainers.PropertyContainer.GetValue | Vixen.Core/PropertyContainer.cs:393-422 | returns the stored value, else the default, else null; a KeepValue default of an unstored key is stored unless forced not to keep |
| PropertyContainers.PropertyContainer.Get | Vixen.Core/PropertyContainer.cs:181 | as GetValue without forcing, so ContainsKey becomes true after reading a KeepValue default |
| PropertyContainers.PropertyContainer.SetObject | Vixen.Core/PropertyContainer.cs:424-461 | creates the dictionary, then stores the value; adding a stored key fails and changes nothing; callbacks run only when the value changed |
| PropertyContainers.PropertyContainer.Set | Vixen.Core/PropertyContainer.cs:369-371 | always stores the value, with the change callbacks |
| PropertyContainers.PropertyContainer.Add | Vixen.Core/PropertyContainer.cs:106-108 | fails iff the key is already stored, leaving the entries as they were; otherwise stores the value |
| PropertyContainers.PropertyContainer.Remove | Vixen.Core/PropertyContainer.cs:140-164 | true iff the key was stored or has a KeepValue default; other keys are unchanged; afterwards the key is stored only when a KeepValue default was read again; without a KeepValue default it agrees with RemoveStored, with one a never-stored key is reported removed |
| PropertyContainers.RemoveStored | Vixen.Core/PropertyContainer.cs:140-164 | the intended removal: true iff the key was stored; afterwards the key is not stored and reads as its default; every other key keeps its entry |
| PropertyContainers.RemoveStoredIsIdempotent | Vixen.Core/PropertyContainer.cs:140-164 | a second intended removal of the same key reports false and changes nothing; other keys read as before |
| PropertyContainers.PropertyContainer.Clear | Vixen.Core/PropertyContainer.cs:96-98 | no entry remains and no callback runs |
| PropertyContainers.PropertyContainer.TryGetValue | Vixen.Core/PropertyContainer.cs:259-269 | found iff the key is stored, with its value; null otherwise; nothing changes |
| PropertyContainers.PropertyContainer.Count | Vixen.Core/PropertyContainer.cs:38-49 | the number of stored entries |
| YamlNodes.SafeEquals | Vixen.Core.Yaml/Serialization/YamlNode.cs:57-67 | true iff both are null or both are equal strings |
| YamlNodes.HashOf | Vixen.Core.Yaml/Serialization/YamlNode.cs:72 | zero for null, the string's 32-bit hash otherwise |
| YamlNodes.CombineHashCodes | Vixen.Core.Yaml/Serialization/YamlNode.cs:77 | the result is a 32-bit value |
| YamlNodes.CombineHashCodesIsTimes33 | Vixen.Core.Yaml/Serialization/YamlNode.cs:77 | ((h1 << 5) + h1) ^ h2 in unchecked arithmetic is (33·h1 mod 2^32) xor h2 |
| YamlNodes.YamlNode.GetHashCode | Vixen.Core.Yaml/Serialization/YamlNode.cs:50-52 | the hash of the tag alone |
| YamlNodes.YamlNode.Equals | Vixen.Core.Yaml/Serialization/YamlNode.cs:151-153 | equal iff the tags are equal |
| YamlNodes.EqualNodesHashEqually | Vixen.Core.Yaml/Serialization/YamlNode.cs:50-153 | equal nodes hash equally, and nodes with the same tag are equal whatever their anchors |
| YamlNodes.SaveWritesEachAnchorOnce | Vixen.Core.Yaml/Serialization/YamlNode.cs:133-139 | a node without an anchor is always written in full; one with an anchor is written in full the first time and as an alias after that |
| YamlNodes.YamlNode.Save | Vixen.Core.Yaml/Serialization/YamlNode.cs:133-139 | an already-written non-empty anchor yields only an alias; otherwise the node is written and a non-empty anchor recorded |
| YamlNodes.YamlNode.Load | Vixen.Core.Yaml/Serialization/YamlNode.cs:111-120 | copies tag and marks; registers the node under its anchor only when the event has one |
| YamlNodes.ParseNode | Vixen.Core.Yaml/Serialization/YamlNode.cs:85-104 | scalar, sequence and mapping events pick their node kind; an alias event is consumed and resolved through the loading state; an event of another kind fails with UnsupportedEvent; no event left fails with EndOfStream |
| InputSourcesSimulated.RemoveFirstOfDistinct | Rin.InputSystem/Simulated/InputSourceSimulated.cs:35-42 | removing from a list without repetitions removes exactly that device |
| InputSourcesSimulated.InputSourceSimulated.AddDevice | Rin.InputSystem/Simulated/InputSourceSimulated.cs:28-33 | a new device of the kind is appended to its own list and registered; the other lists are unchanged |
| InputSourcesSimulated.InputSourceSimulated.RemoveDevice | Rin.InputSystem/Simulated/InputSourceSimulated.cs:35-42 | a device not in its list is refused and nothing changes; otherwise it is unregistered and removed from its list; the other lists are unchanged |
| InputSourcesSimulated.InputSourceSimulated.RemoveAllDevices | Rin.InputSystem/Simulated/InputSourceSimulated.cs:44-50 | every device of the list is unregistered and the list is emptied; the other lists are unchanged |
| InputSourcesSimulated.InputSourceSimulated.Dispose | Rin.InputSystem/Simulated/InputSourceSimulated.cs:20-26 | empties all four lists |
| JsonEventEmitters.JsonScalar | Rin.Core.Yaml/Serialization/JsonEventEmitter.cs:9-23 | DoubleQuoted iff the source value is a string or char, Plain otherwise; a null source value is rendered "null"; other values are unchanged |
| JsonEventEmitters.JsonScalarIsIdempotent | Rin.Core.Yaml/Serialization/JsonEventEmitter.cs:9-23 | adjusting a scalar twice gives the same style and text as once |
| JsonEventEmitters.JsonEventEmitter.EmitAlias | Rin.Core.Yaml/Serialization/JsonEventEmitter.cs:4-6 | always fails with NotSupported |
| JsonEventEmitters.JsonEventEmitter.EmitScalar | Rin.Core.Yaml/Serialization/JsonEventEmitter.cs:8-27 | marks the scalar plain-implicit, applies JsonScalar, and forwards it exactly once |
| JsonEventEmitters.JsonEventEmitter.EmitMappingStart | Rin.Core.Yaml/Serialization/JsonEventEmitter.cs:29-33 | forces Compact style and forwards the event exactly once |
| JsonEventEmitters.JsonEventEmitter.EmitSequenceStart | Rin.Core.Yaml/Serialization/JsonEventEmitter.cs:35-39 | forces Compact style and forwards the event exactly once |
| YamlVersions.Equals | Rin.Core.Yaml/Version.cs:34-37 | true iff the other object is a Version with the same major and minor numbers |
| YamlVersions.GetHashCode | Rin.Core.Yaml/Version.cs:45 | the result is a 32-bit value |
| YamlVersions.EqualsIsAnEquivalence | Rin.Core.Yaml/Version.cs:34-45 | equality is reflexive and symmetric, never holds for null or a non-Version, and equal versions hash equally |
| YamlVersions.SwappedVersionsHashEqually | Rin.Core.Yaml/Version.cs:45 | Major ^ Minor does not tell 1.2 from 2.1 |
| VersionDirectives.FromVersion | Vixen.Core.Yaml/Tokens/VersionDirective.cs:17 | a token holding the version, with empty marks |
| VersionDirectives.DirectiveEquals | Vixen.Core.Yaml/Tokens/VersionDirective.cs:36-39 | true iff the other object is a directive with an equal version |
| VersionDirectives.DirectiveHash | Vixen.Core.Yaml/Tokens/VersionDirective.cs:47 | the version's hash |
| VersionDirectives.DirectiveEqualsIgnoresMarks | Vixen.Core.Yaml/Tokens/VersionDirective.cs:25-47 | equal iff versions are equal, whatever the marks; reflexive and symmetric; never equal to null or a non-directive; equal directives hash equally |

## Left out

- Integer widths:
  - `int` and `long` are unbounded integers restricted to their ranges.
  - Unchecked wrap-around is written out with `Wrap`, except in the midpoint of the binary searches (see below).
  - The `uint`/`ulong` casts go through `ToUnsigned`.
- `AllocatorHelpers.NextPow2IsSmallestPowerOfTwo`: proved only for 0 < v <= 2^30 (int) or 2^62 (long). Above that the shift overflows; the function itself is still modelled for every value.
- `AllocatorHelpers.BlocksOnSamePageIff`: proved only for a non-negative offset of A, where the unsigned mask reading and floor division agree, and under the conditions of the debug assertion at Helpers.cs:60 (A ends at or before B, positive size and page size). `BlocksOnSamePage` itself has no such precondition, since the assertion does nothing in a release build.
- `AllocatorHelpers.AlignUpIsSmallestMultiple`: proved only where `value + alignment - 1` does not wrap; with wrap-around the result can be negative (`AlignUp(long.MaxValue, 2)`). The exceptions of `AlignUp` and `AlignDown` are modelled as `Err` values for every input.
- `AllocatorHelpers.BinarySearch`: the three exact-match overloads differ only in how they compare, so they are one method over a comparison function.
- `AllocatorHelpers.BinarySearch`, `AllocatorHelpers.LeftmostLoop`, `AllocatorHelpers.LeftmostLoopFindsFirstNotLess`, `AllocatorHelpers.BinarySearchLeftmost`, `AllocatorHelpers.LeftmostBy`, `AllocatorHelpers.BinarySearchLeftmostBy` and `AllocatorHelpers.InsertSorted`: the midpoint `(begin + end) / 2` is computed without 32-bit wrap-around. In C# the sum wraps once the list holds more than 2^30 elements, so lists that long are outside the model.
- Allocator debug constants and fill patterns: left out, as they are plain constants with nothing to state.
- `PoolListStruct`:
  - The indexers and the capacity constructor are left out.
  - The factory is a parameter of `Add` (the object it would make), and the calls to it are counted.
  - `Reset` setting each slot to null before clearing is not modelled, because the list is emptied right after.
- `ListStore`:
  - The `Store<T>` base class (stream, transactions, locking) is not part of this model.
  - The unsaved linked list is a sequence.
- Locks in `ListStore`, `ContentIndexMap` and `ObjectDatabaseContentIndexMap`: modelled as plain sequential operations.
- Dictionary enumeration order: not modelled.
  - `SearchValues` and `GetMergedIdMap` state which pairs they return, each once, but not their order.
  - `PropertyContainer.Count` counts the entries rather than walking an enumerator.
- `ContentIndexMap` file access:
  - `NewTool`, `Load` and `CreateInMemory` open files through the virtual file system and are left out.
  - `ObjectId.TryParse` and `ObjectId.ToString` are parameters.
  - The regex classes `\s` and `\w` are abstract character predicates.
  - The UTF-8 encoding of the stream is not modelled.
  - The `DictionaryStore` base is not part of this model.
- `ObjectIds.Decode`: a stream that ends before the flag or the hash is assumed to fail. The byte-array read of the serialization stream is not part of this model; a read that ignored a short count would leave zero bytes instead. `ObjectIds.DecodeFlag` and `ObjectIds.SerializeObjectId` rest on the same assumption.
- `ObjectId`: ObjectId.cs is not part of this model, so an id is its 16 hash bytes. Serialization works on a byte sequence with a position.
- `PropertyContainer`:
  - Accessor metadata, the static accessor registry, validation and invalidation metadata, value-type `Set<T>` and `ValueHolder` boxing, and `CopyTo` are left out.
  - A default value is one fixed value per key, not a factory call.
  - The container event and key callbacks are recorded in order instead of being run.
- YAML nodes:
  - The node subclasses, `EventReader` and `DocumentLoadingState` are not part of this model.
  - Each subclass's own `Emit` is recorded as one event.
  - `ParseNode` returns the node kind instead of running the subclass constructors that consume events.
  - `AddAnchor` is assumed to overwrite an earlier node under the same anchor; `DocumentLoadingState` is not part of this model, so this is the model's choice, not a fact about the source.
  - `ParseNode`: what `EventReader.Accept` does at the end of the events is not part of this model; the model assumes a failure and gives it its own error, `EndOfStream`, apart from the `ArgumentException` for an unsupported event.
  - `String.GetHashCode` is a parameter.
- `InputSourceSimulated`:
  - The four add, remove and remove-all variants are the same code per device kind, so each is modelled once with the kind as a parameter.
  - `InputSourceBase` registration is a set of devices.
  - The base `Dispose` and `Initialize` are left out.
- `VersionDirective`: a directive built around a null `Version` is not modelled.
- `VersionDirective` refers to the YAML `Version` type of its own namespace, which is not part of this model; it is assumed to be the same as the `Version` of Rin.Core.Yaml/Version.cs modelled in `YamlVersions`.

## Findings

| source | as written | input that shows it | evidently intended | confidence | as-written member | corrected member |
|---|---|---|---|---|---|---|
| Platform/Vulkan/Allocator/Helpers.cs:170-187 | after the loop, the result is chosen by the last comparison computed, not by comparing `list[begin]` | sorted list [-1, 0], comparison x ↦ x: the loop's last comparison is with -1, so it returns ~1 although index 1 matches | a non-negative result whenever a match exists, at the first match | not executed | AllocatorHelpers.LeftmostSingleMissesMatch | AllocatorHelpers.LeftmostCheckedIsLeftmost |
| Platform/Vulkan/Allocator/Helpers.cs:189-205 | after the loop, `list[begin]` is read even when `begin == list.Count` | any list whose elements all compare less than the value, e.g. [0] searched for 1: index out of range | return ~Count when every element is less | not executed | AllocatorHelpers.LeftmostBy | AllocatorHelpers.LeftmostCheckedIsLeftmost |
| Vixen.Core/PropertyContainer.cs:140-164 | the key is read with `Get` before it is removed, which stores a `KeepValue` default; with a listener it is read again afterwards | a key with a `KeepValue` default that was never stored: `Remove` returns true, and with a listener the key is stored again | return true only when an entry was stored, and leave the key unstored | not executed | PropertyContainers.PropertyContainer.Remove | PropertyContainers.RemoveStored |
