# Reliable indexed dictionary — a Dafny model

This project models the indexing core of the Service Fabric indexing extensions. A reliable
dictionary (the *primary*) is wrapped so that every write also updates its secondary indexes,
which live in index collections of their own:

- a **filterable index** maps each projected filter value to the primary keys that carry it.
  It answers exact-match, range and enumeration queries. The current implementation substitutes
  `"**NA**"` for null string values. The legacy implementation does not substitute and has an
  inclusive-only range query.
- a **searchable index** maps each word of a projected text to the primary keys whose text
  contains it. It answers full-text queries limited to a number of keys.

The facade (`ReliableIndexedDictionary`) forwards each write to the primary dictionary and then
runs the matching hook of every declared index, in declaration order. Its queries find keys
through an index and join them with the primary dictionary. The registry functions
(`IndexExtensions`) create, look up and remove the primary and its index collections together,
under names derived from the dictionary's name.

Module layout, one file per source component:

| file | module | models |
|---|---|---|
| `wrappers.dfy` | `Wrappers` | `Option`, `Result` and the exceptions the code throws |
| `collection_extensions.dfy` | `CollectionExtensions` | `CopyAndAdd`, `CopyAndRemove`, `AddRange` on a `HashSet` |
| `sorting.dfy` | `Sorting` | `List.Sort` / `Array.Sort`, strict total orders, ordinal string order |
| `tokenizer.dfy` | `Tokenizer` | `GetDistinctWords` of the searchable index |
| `posting_lists.dfy` | `PostingLists` | an index collection (value to key list) and its add/remove steps |
| `state_manager.dfy` | `StateManagers` | the registry of collection names, and the `GetIndexName` shared by both index kinds |
| `search_index.dfy` | `SearchIndexes` | `SearchableIndex` |
| `filter_values.dfy` | `FilterValues` | filter values, their order, the null substitution, range selection |
| `filter_index.dfy` | `FilterIndexes` | the current `FilterableIndex` |
| `legacy_filter_index.dfy` | `LegacyFilterIndexes` | the legacy `FilterableIndex` |
| `fetch.dfy` | `Fetch` | `DictionaryFetchAsyncEnumerable` (the join of keys with the primary) |
| `indexed_dictionary.dfy` | `IndexedDictionaries` | `ReliableIndexedDictionary` |
| `registry.dfy` | `Registry` | `IndexExtensions` |

The central invariant is **coherence** (`PostingLists.Coherent`). An index collection holds a key
under a value exactly when the key's primary entry projects to that value. Each key occurs at
most once per posting list, and no posting list is empty. Every hook is proved to preserve
coherence, and so is every write of the facade, provided no filterable index projects the
entry to null (the store rejects a null key). Exact-match and range queries on a coherent index
are proved to return exactly the matching primary keys.

## Model

| member | source | states |
|---|---|---|
| CollectionExtensions.IndexOf | src/Microsoft.ServiceFabric.Data.Indexing.Persistent/CollectionExtensions.cs:32-34 | `Array.IndexOf`: -1 exactly when the value is absent; otherwise the position of its first occurrence |
| CollectionExtensions.Appended | src/Microsoft.ServiceFabric.Data.Indexing.Persistent/CollectionExtensions.cs:16-25 | `CopyAndAdd`: one longer, the old list first and the value last |
| CollectionExtensions.Removed | src/Microsoft.ServiceFabric.Data.Indexing.Persistent/CollectionExtensions.cs:27-40 | `CopyAndRemove`: `KeyNotFound` exactly when the value is absent; otherwise one shorter |
| CollectionExtensions.RemovedShape | src/Microsoft.ServiceFabric.Data.Indexing.Persistent/CollectionExtensions.cs:27-40 | removal fails with `KeyNotFound` exactly when the value is absent; otherwise the result is one shorter and lacks exactly one copy of the value |
| CollectionExtensions.RemovedKeepsOrder | src/Microsoft.ServiceFabric.Data.Indexing.Persistent/CollectionExtensions.cs:32-39 | the result is the prefix before the first occurrence followed by the suffix after it |
| CollectionExtensions.RemovedElements | src/Microsoft.ServiceFabric.Data.Indexing.Persistent/CollectionExtensions.cs:27-40 | on a duplicate-free list, removal takes out exactly that value and the result stays duplicate-free |
| CollectionExtensions.AppendedElements | src/Microsoft.ServiceFabric.Data.Indexing.Persistent/CollectionExtensions.cs:16-25 | appending an absent value keeps a list duplicate-free and adds exactly that value |
| CollectionExtensions.RemoveAfterAdd | src/Microsoft.ServiceFabric.Data.Indexing.Persistent/CollectionExtensions.cs:16-40 | round trip: removing a value just appended to a list that lacked it gives the list back |
| CollectionExtensions.ArrayCopy | src/Microsoft.ServiceFabric.Data.Indexing.Persistent/CollectionExtensions.cs:22 | `Array.Copy`: the destination range holds the source range and the rest of the destination is unchanged |
| CollectionExtensions.CopyAndAdd | src/Microsoft.ServiceFabric.Data.Indexing.Persistent/CollectionExtensions.cs:16-25 | a null array is `ArgumentNullException`; otherwise a fresh array holding the old one followed by the value |
| CollectionExtensions.CopyAndRemove | src/Microsoft.ServiceFabric.Data.Indexing.Persistent/CollectionExtensions.cs:27-40 | null is `ArgumentNullException`, an absent value `KeyNotFoundException`; otherwise a fresh array without the first occurrence |
| CollectionExtensions.ExtendedElements | src/Microsoft.ServiceFabric.Data.Indexing.Persistent/CollectionExtensions.cs:8-14 | adding a range to a hash set keeps it duplicate-free, keeps the old elements in front and adds exactly the new items |
| CollectionExtensions.DistinctCardinality | src/Microsoft.ServiceFabric.Data.Indexing.Persistent/CollectionExtensions.cs:8-14 | a duplicate-free sequence is as long as the set of its elements (a hash set's `Count`) |
| CollectionExtensions.DistinctSubsetLength | src/ServiceFabric.Extensions.Data.Indexing/ReliableIndexedDictionary.cs:371-380 | a duplicate-free sequence whose elements all occur in another duplicate-free one is no longer than it |
| CollectionExtensions.SubsetCardinality | src/ServiceFabric.Extensions.Data.Indexing/ReliableIndexedDictionary.cs:371-380 | a subset has no more elements than its superset |
| CollectionExtensions.HashSet.constructor | src/Microsoft.ServiceFabric.Data.Indexing.Persistent/SearchableIndex.cs:37 | a new hash set is empty |
| CollectionExtensions.HashSet.Add | src/Microsoft.ServiceFabric.Data.Indexing.Persistent/CollectionExtensions.cs:12 | `HashSet.Add` adds the item exactly when it is absent and reports whether it did |
| CollectionExtensions.HashSet.AddRange | src/Microsoft.ServiceFabric.Data.Indexing.Persistent/CollectionExtensions.cs:8-14 | adds every item in order; the contents become the old contents extended by the new items |
| Sorting.ConsSorted | src/Microsoft.ServiceFabric.Data.Indexing.Persistent/SearchableIndex.cs:203-204 | putting an element no greater than the rest in front of an ascending sequence keeps it ascending |
| Sorting.HeadIsLeast | src/Microsoft.ServiceFabric.Data.Indexing.Persistent/SearchableIndex.cs:203-204 | no element of an ascending sequence is below its first element |
| Sorting.Insert | src/Microsoft.ServiceFabric.Data.Indexing.Persistent/SearchableIndex.cs:203-204 | inserting into an ascending sequence keeps it ascending and adds exactly one copy of the element |
| Sorting.InsertedAboveHead | src/Microsoft.ServiceFabric.Data.Indexing.Persistent/SearchableIndex.cs:203-204 | what is inserted behind the head of an ascending sequence stays not below the head |
| Sorting.Sort | src/Microsoft.ServiceFabric.Data.Indexing.Persistent/SearchableIndex.cs:203-204 | `List.Sort`: the result is ascending and a permutation of the input |
| Sorting.SortArray | src/ServiceFabric.Extensions.Data.Indexing/FilterableIndex.cs:81-82 | `Array.Sort` of keys in place: the array ends ascending and a permutation of its old contents |
| Sorting.NoDuplicatesCount | src/Microsoft.ServiceFabric.Data.Indexing.Persistent/SearchableIndex.cs:180-205 | a sequence is duplicate-free exactly when no element occurs twice in its multiset |
| Sorting.SortedDistinctIsStrict | src/Microsoft.ServiceFabric.Data.Indexing.Persistent/SearchableIndex.cs:203-205 | sorting distinct items gives a strictly ascending sequence of the same elements |
| Sorting.MinExists | src/ServiceFabric.Extensions.Data.Indexing/FilterableIndex.cs:151 | a non-empty finite set has a least element under a strict total order |
| Sorting.SortedElements | src/ServiceFabric.Extensions.Data.Indexing/FilterableIndex.cs:151 | the ordered enumeration of a set: strictly ascending and holding exactly the set's elements |
| Sorting.StrictlySortedDistinct | src/ServiceFabric.Extensions.Data.Indexing/FilterableIndex.cs:151 | a strictly ascending sequence has no duplicates |
| Sorting.SortedIsSortedElements | src/Microsoft.ServiceFabric.Data.Indexing.Persistent/SearchableIndex.cs:203-205 | sorting the distinct items of a collection yields the one ascending enumeration of their set |
| Sorting.StrictlySortedUnique | src/ServiceFabric.Extensions.Data.Indexing/FilterableIndex.cs:151 | two strictly ascending sequences with the same elements are equal |
| Sorting.StrLessIrreflexive | src/Microsoft.ServiceFabric.Data.Indexing.Persistent/SearchableIndex.cs:204 | no string is below itself in ordinal order |
| Sorting.StrLessTransitive | src/Microsoft.ServiceFabric.Data.Indexing.Persistent/SearchableIndex.cs:204 | the ordinal order is transitive |
| Sorting.StrLessTotal | src/Microsoft.ServiceFabric.Data.Indexing.Persistent/SearchableIndex.cs:204 | of two different strings one is below the other |
| Sorting.StrLessIsStrictTotalOrder | src/Microsoft.ServiceFabric.Data.Indexing.Persistent/SearchableIndex.cs:204 | the ordinal string order is a strict total order |
| Tokenizer.ToLowerCharKeepsClass | src/Microsoft.ServiceFabric.Data.Indexing.Persistent/SearchableIndex.cs:189-198 | lower-casing keeps a character a letter or digit, or white space, exactly when it was; it is idempotent |
| Tokenizer.TokenLength | src/Microsoft.ServiceFabric.Data.Indexing.Persistent/SearchableIndex.cs:183 | the leading run of non-white-space characters ends at white space or at the end of the text |
| Tokenizer.Split | src/Microsoft.ServiceFabric.Data.Indexing.Persistent/SearchableIndex.cs:183 | `Split(null, RemoveEmptyEntries)`: no token is empty (the full property is `SplitTokens`) |
| Tokenizer.RemoveWhiteSpaceAppend | src/Microsoft.ServiceFabric.Data.Indexing.Persistent/SearchableIndex.cs:183 | dropping white space distributes over concatenation |
| Tokenizer.RemoveWhiteSpaceNone | src/Microsoft.ServiceFabric.Data.Indexing.Persistent/SearchableIndex.cs:183 | a text without white space is unchanged by dropping white space |
| Tokenizer.SplitTokens | src/Microsoft.ServiceFabric.Data.Indexing.Persistent/SearchableIndex.cs:183 | `Split(null, RemoveEmptyEntries)`: every token is non-empty and free of white space, and the tokens concatenated are the text without its white space |
| Tokenizer.TrimStart | src/Microsoft.ServiceFabric.Data.Indexing.Persistent/SearchableIndex.cs:189-190 | definition of the first trimming loop: no longer than the token, and a non-empty result starts with a letter or digit (the full property is `TrimStartAt`) |
| Tokenizer.TrimEnd | src/Microsoft.ServiceFabric.Data.Indexing.Persistent/SearchableIndex.cs:191-192 | definition of the second trimming loop: no longer than the token, and a non-empty result ends with a letter or digit (the full property is `TrimEndAt`) |
| Tokenizer.Trim | src/Microsoft.ServiceFabric.Data.Indexing.Persistent/SearchableIndex.cs:185-198 | definition of the trimmed token: no longer than the token, and a non-empty result ends with a letter or digit (the full slice property is `TrimIsSlice`) |
| Tokenizer.TrimStartAt | src/Microsoft.ServiceFabric.Data.Indexing.Persistent/SearchableIndex.cs:189-190 | trimming the start drops exactly the leading characters that are not letters or digits |
| Tokenizer.TrimEndAt | src/Microsoft.ServiceFabric.Data.Indexing.Persistent/SearchableIndex.cs:191-192 | trimming the end drops exactly the trailing characters that are not letters or digits |
| Tokenizer.TrimIsSlice | src/Microsoft.ServiceFabric.Data.Indexing.Persistent/SearchableIndex.cs:185-198 | a trimmed token is a slice of it; what is cut off is neither letter nor digit, and a non-empty result starts and ends with one |
| Tokenizer.TokenWordsAppend | src/Microsoft.ServiceFabric.Data.Indexing.Persistent/SearchableIndex.cs:183-200 | one more token adds its trimmed, lower-cased form when that is non-empty |
| Tokenizer.WordsWellFormed | src/Microsoft.ServiceFabric.Data.Indexing.Persistent/SearchableIndex.cs:175-206 | every word is non-empty, lower-case, free of white space, starts and ends with a letter or digit, and is the lower-cased slice of a token |
| Tokenizer.SplitToLower | src/Microsoft.ServiceFabric.Data.Indexing.Persistent/SearchableIndex.cs:183 | the tokens of a lower-cased text are the lower-cased tokens |
| Tokenizer.TokenLengthToLower | src/Microsoft.ServiceFabric.Data.Indexing.Persistent/SearchableIndex.cs:183 | lower-casing does not move token boundaries |
| Tokenizer.TrimToLower | src/Microsoft.ServiceFabric.Data.Indexing.Persistent/SearchableIndex.cs:185-198 | trimming and lower-casing commute |
| Tokenizer.TrimStartToLower | src/Microsoft.ServiceFabric.Data.Indexing.Persistent/SearchableIndex.cs:189-190 | trimming the start and lower-casing commute |
| Tokenizer.TrimEndToLower | src/Microsoft.ServiceFabric.Data.Indexing.Persistent/SearchableIndex.cs:191-192 | trimming the end and lower-casing commute |
| Tokenizer.WordsIgnoreCase | src/Microsoft.ServiceFabric.Data.Indexing.Persistent/SearchableIndex.cs:175-206 | a text and its lower-cased form have the same words, so search is case-insensitive |
| Tokenizer.LowerWordIsWord | src/Microsoft.ServiceFabric.Data.Indexing.Persistent/SearchableIndex.cs:175-206 | every word of the lower-cased text is a word of the text |
| Tokenizer.WordIsLowerWord | src/Microsoft.ServiceFabric.Data.Indexing.Persistent/SearchableIndex.cs:175-206 | every word of the text is a word of the lower-cased text |
| Tokenizer.TokenWordToLower | src/Microsoft.ServiceFabric.Data.Indexing.Persistent/SearchableIndex.cs:185-198 | a token and its lower-cased form give the same word, or both none |
| Tokenizer.ToLowerTwice | src/Microsoft.ServiceFabric.Data.Indexing.Persistent/SearchableIndex.cs:198 | lower-casing is idempotent and keeps the length |
| Tokenizer.TrimBounds | src/Microsoft.ServiceFabric.Data.Indexing.Persistent/SearchableIndex.cs:185-192 | the two trimming loops stop at the bounds of the trimmed token |
| Tokenizer.SkipLeading | src/Microsoft.ServiceFabric.Data.Indexing.Persistent/SearchableIndex.cs:189-190 | the first loop stops at the start of `TrimStart` of the token |
| Tokenizer.SkipTrailing | src/Microsoft.ServiceFabric.Data.Indexing.Persistent/SearchableIndex.cs:191-192 | the second loop stops at the end of the trimmed token |
| Tokenizer.CollectWords | src/Microsoft.ServiceFabric.Data.Indexing.Persistent/SearchableIndex.cs:180-200 | the loop over the tokens collects each word of the tokens exactly once |
| Tokenizer.SortedWords | src/Microsoft.ServiceFabric.Data.Indexing.Persistent/SearchableIndex.cs:202-205 | the ascending enumeration of a set of words: strictly ascending, holding exactly the set |
| Tokenizer.SortWords | src/Microsoft.ServiceFabric.Data.Indexing.Persistent/SearchableIndex.cs:203-204 | sorting words gives an ascending permutation |
| Tokenizer.SortedDistinctWords | src/Microsoft.ServiceFabric.Data.Indexing.Persistent/SearchableIndex.cs:202-205 | sorting the distinct words gives the ascending enumeration of their set |
| Tokenizer.GetDistinctWords | src/Microsoft.ServiceFabric.Data.Indexing.Persistent/SearchableIndex.cs:175-206 | no words for a null or empty text; otherwise the words of the text, each once, in ascending ordinal order |
| PostingLists.AddKey | src/Microsoft.ServiceFabric.Data.Indexing.Persistent/SearchableIndex.cs:147 | one add step: the value gets an entry, the key is appended to its list, and every other entry is unchanged |
| PostingLists.RemoveKey | src/Microsoft.ServiceFabric.Data.Indexing.Persistent/SearchableIndex.cs:156-171 | one remove step fails with `KeyNotFound` exactly when the entry or the key is missing; other entries are unchanged and no entry is added |
| PostingLists.ElementsCons | src/Microsoft.ServiceFabric.Data.Indexing.Persistent/SearchableIndex.cs:145-148 | the values of a list are its head and the values of its tail |
| PostingLists.AddKeysShape | src/Microsoft.ServiceFabric.Data.Indexing.Persistent/SearchableIndex.cs:143-149 | adding under distinct values gives every one of them an entry ending in the key and leaves the other entries alone |
| PostingLists.EmptyCoherent | src/Microsoft.ServiceFabric.Data.Indexing.Persistent/SearchableIndex.cs:138-141 | an empty index is coherent with entries that project to no value |
| PostingLists.CoherentDropEmpty | src/Microsoft.ServiceFabric.Data.Indexing.Persistent/SearchableIndex.cs:143-173 | a key with no values makes no difference to coherence |
| PostingLists.AddKeyCoherent | src/Microsoft.ServiceFabric.Data.Indexing.Persistent/SearchableIndex.cs:147 | adding a key under a value it does not have yet keeps the index coherent with the key gaining the value |
| PostingLists.AddKeysCoherent | src/Microsoft.ServiceFabric.Data.Indexing.Persistent/SearchableIndex.cs:143-149 | adding a key under distinct new values keeps coherence with the key gaining exactly those values |
| PostingLists.CoherentSameValues | src/Microsoft.ServiceFabric.Data.Indexing.Persistent/SearchableIndex.cs:143-173 | recording a key's own values again changes nothing |
| PostingLists.RemoveKeyCoherent | src/Microsoft.ServiceFabric.Data.Indexing.Persistent/SearchableIndex.cs:156-171 | removing a key from a value it has succeeds and keeps coherence with the key losing the value |
| PostingLists.RemoveKeysCoherent | src/Microsoft.ServiceFabric.Data.Indexing.Persistent/SearchableIndex.cs:151-173 | removing a key from distinct values it has succeeds and keeps coherence with the key losing exactly those |
| PostingLists.RemoveKeysFails | src/Microsoft.ServiceFabric.Data.Indexing.Persistent/SearchableIndex.cs:151-173 | on a coherent index, removal fails (`KeyNotFound`) exactly when some value is not the key's |
| SearchIndexes.Except | src/Microsoft.ServiceFabric.Data.Indexing.Persistent/SearchableIndex.cs:115-116 | `Except`: exactly the elements of the first list that are not in the second, duplicate-free when the first is |
| SearchIndexes.Take | src/Microsoft.ServiceFabric.Data.Indexing.Persistent/SearchableIndex.cs:52 | `Take(count)`: the first `count` items, none for a count of zero or less, all when fewer |
| StateManagers.IndexCollectionName | src/Microsoft.ServiceFabric.Data.Indexing.Persistent/SearchableIndex.cs:208-211 | the collection name is the base, then the kind (`search` here, `filter` in FilterableIndex.cs lines 289-292), a slash and the index name, each recoverable from its position |
| SearchIndexes.SearchableIndex.constructor | src/Microsoft.ServiceFabric.Data.Indexing.Persistent/SearchableIndex.cs:26-30 | keeps the name and projection; the collection starts empty |
| SearchIndexes.SearchableIndex.Create | src/Microsoft.ServiceFabric.Data.Indexing.Persistent/SearchableIndex.cs:26-30 | a null name or projection is `ArgumentNullException` |
| SearchIndexes.SearchDone | src/Microsoft.ServiceFabric.Data.Indexing.Persistent/SearchableIndex.cs:35-53 | when the word scan ends, by running out of words or by reaching `count`, taking `count` keys gives distinct hits, and every hit when fewer |
| SearchIndexes.SearchableIndex.Search | src/Microsoft.ServiceFabric.Data.Indexing.Persistent/SearchableIndex.cs:35-53 | each key once, at most `count` of them, each under a word of the query; a result shorter than `count` holds every key under every query word |
| SearchIndexes.SearchableIndex.AddWords | src/Microsoft.ServiceFabric.Data.Indexing.Persistent/SearchableIndex.cs:143-149 | the private add loop: the key is added under each word in order |
| SearchIndexes.SearchableIndex.RemoveWords | src/Microsoft.ServiceFabric.Data.Indexing.Persistent/SearchableIndex.cs:151-173 | the private remove loop: the key leaves each word in order, stopping at the first `KeyNotFoundException` |
| SearchIndexes.SearchableIndex.OnAdd | src/Microsoft.ServiceFabric.Data.Indexing.Persistent/SearchableIndex.cs:95-100 | the add hook files the key under each distinct word of the projected text |
| SearchIndexes.SearchableIndex.OnUpdate | src/Microsoft.ServiceFabric.Data.Indexing.Persistent/SearchableIndex.cs:106-121 | the update hook removes the key from the words only the old text has, then adds it under the words only the new text has |
| SearchIndexes.SearchableIndex.OnRemove | src/Microsoft.ServiceFabric.Data.Indexing.Persistent/SearchableIndex.cs:127-132 | the remove hook takes the key out of each word of the projected text |
| SearchIndexes.SearchableIndex.OnClear | src/Microsoft.ServiceFabric.Data.Indexing.Persistent/SearchableIndex.cs:138-141 | the clear hook empties the collection |
| SearchIndexes.SearchableIndex.IndexName | src/Microsoft.ServiceFabric.Data.Indexing.Persistent/SearchableIndex.cs:208-211 | `GetIndexName`: the collection name extends the base name and ends in the index's name |
| SearchIndexes.SearchableIndex.TryGetIndex | src/Microsoft.ServiceFabric.Data.Indexing.Persistent/SearchableIndex.cs:59-68 | true exactly when the registry holds the index's collection |
| SearchIndexes.SearchableIndex.GetOrAddIndex | src/Microsoft.ServiceFabric.Data.Indexing.Persistent/SearchableIndex.cs:74-78 | the registry holds the collection afterwards; a newly created one is empty |
| SearchIndexes.SearchableIndex.RemoveIndex | src/Microsoft.ServiceFabric.Data.Indexing.Persistent/SearchableIndex.cs:84-89 | the registry no longer holds the collection and its contents are gone |
| SearchIndexes.AddedStoreCoherent | src/Microsoft.ServiceFabric.Data.Indexing.Persistent/SearchableIndex.cs:95-100 | on a coherent index, the add hook for a new key gives the index of the primary with the entry added |
| SearchIndexes.UpdatedStoreCoherent | src/Microsoft.ServiceFabric.Data.Indexing.Persistent/SearchableIndex.cs:106-121 | on a coherent index, the update hook with the stored old value succeeds and gives the index of the updated primary |
| SearchIndexes.RemovedStoreCoherent | src/Microsoft.ServiceFabric.Data.Indexing.Persistent/SearchableIndex.cs:127-132 | on a coherent index, the remove hook with the stored value succeeds and gives the index of the primary without the entry |
| SearchIndexes.RemoveUnindexedFails | src/Microsoft.ServiceFabric.Data.Indexing.Persistent/SearchableIndex.cs:156-158 | removing an entry the index never saw, when its text has words, throws `KeyNotFoundException` |
| SearchIndexes.UpdateSameWordsNoWrites | src/Microsoft.ServiceFabric.Data.Indexing.Persistent/SearchableIndex.cs:114-120 | an update that keeps the same words leaves the collection unchanged |
| SearchIndexes.AddedStoreShape | src/Microsoft.ServiceFabric.Data.Indexing.Persistent/SearchableIndex.cs:95-100 | after the add hook every word of the entry lists the key last, and words outside the entry are unchanged |
| FilterValues.LessIrreflexive | src/ServiceFabric.Extensions.Data.Indexing/FilterableIndex.cs:93 | no filter value compares below itself |
| FilterValues.LessTransitive | src/ServiceFabric.Extensions.Data.Indexing/FilterableIndex.cs:93 | `CompareTo` order is transitive |
| FilterValues.LessTotal | src/ServiceFabric.Extensions.Data.Indexing/FilterableIndex.cs:93 | of two different filter values one compares below the other |
| FilterValues.LessIsStrictTotalOrder | src/ServiceFabric.Extensions.Data.Indexing/FilterableIndex.cs:151 | the order of the ordered enumeration is a strict total order |
| FilterValues.OrderedValues | src/ServiceFabric.Extensions.Data.Indexing/FilterableIndex.cs:166-169 | the distinct filter values in ascending order, each once |
| FilterValues.SortedDistinctValues | src/ServiceFabric.Extensions.Data.Indexing/FilterableIndex.cs:151 | sorting the distinct values of a collection gives its ordered enumeration |
| FilterValues.EnumerateOrdered | src/ServiceFabric.Extensions.Data.Indexing/FilterableIndex.cs:151 | the ordered key enumeration of an index collection is its ascending enumeration |
| FilterValues.SubstituteNull | src/ServiceFabric.Extensions.Data.Indexing/FilterableIndex.cs:65-72 | `SetFilterValueIfNull`: the value is kept, or a null becomes `"**NA**"`; with substitution on for strings the result is never null |
| FilterValues.SubstituteNullMerges | src/ServiceFabric.Extensions.Data.Indexing/FilterableIndex.cs:65-72 | with substitution on for strings, null and `"**NA**"` become the same value; the result stays null exactly when substitution does not apply |
| FilterValues.SelectsBounds | src/ServiceFabric.Extensions.Data.Indexing/FilterableIndex.cs:89-143 | the four range predicates and the two open-ended ones select by `CompareTo`; a bound is selected exactly when inclusive |
| FilterValues.CollectMembers | src/ServiceFabric.Extensions.Data.Indexing/FilterableIndex.cs:145-161 | the helper's loop collects a key exactly when it is filed under a selected value |
| FilterValues.RangeMembers | src/ServiceFabric.Extensions.Data.Indexing/FilterableIndex.cs:145-161 | a range query returns exactly the keys filed under values in range |
| FilterValues.CollectPositions | src/ServiceFabric.Extensions.Data.Indexing/FilterableIndex.cs:151-158 | the collected keys come in the order of their values in the enumeration |
| FilterValues.RangeOrdered | src/ServiceFabric.Extensions.Data.Indexing/FilterableIndex.cs:151-158 | a range result is grouped by value in ascending value order |
| FilterValues.Lookup | src/ServiceFabric.Extensions.Data.Indexing/FilterableIndex.cs:77-84 | `TryGetValueAsync` on the index: exactly the keys listed under the value, none when it is absent |
| FilterValues.AddFilter | src/ServiceFabric.Extensions.Data.Indexing/FilterableIndex.cs:263-266 | `ArgumentNullException` exactly for the null value; otherwise the key is appended under the value and every other value's keys are unchanged |
| FilterValues.RemoveFilter | src/ServiceFabric.Extensions.Data.Indexing/FilterableIndex.cs:268-287 | `ArgumentNullException` for the null value, `KeyNotFoundException` when the key is not listed under the value; otherwise every other value's keys are unchanged |
| FilterValues.UpdateFilter | src/ServiceFabric.Extensions.Data.Indexing/FilterableIndex.cs:229-242 | equal old and new values leave the index as it is; otherwise it fails exactly when either value is null or the key is not under the old one, and on success the key is under the new value and every third value is unchanged |
| FilterValues.RenameMovesKey | src/ServiceFabric.Extensions.Data.Indexing.Test/FilterableIndexTests.cs:118-150 | add under "John" then update to "Jane": "John" finds nothing and "Jane" finds the key alone |
| FilterValues.AddFilterCoherent | src/ServiceFabric.Extensions.Data.Indexing/FilterableIndex.cs:263-266 | adding a new key under a non-null value succeeds and keeps coherence with the key gaining the value |
| FilterValues.RemoveFilterCoherent | src/ServiceFabric.Extensions.Data.Indexing/FilterableIndex.cs:268-287 | removing a key under its recorded value succeeds and keeps coherence without the key |
| FilterValues.UpdateFilterCoherent | src/ServiceFabric.Extensions.Data.Indexing/FilterableIndex.cs:229-242 | moving a key from its recorded value to another non-null value succeeds and keeps coherence |
| FilterValues.RemoveFilterMissing | src/ServiceFabric.Extensions.Data.Indexing/FilterableIndex.cs:268-287 | removing a key under a value it does not have throws `KeyNotFoundException` |
| FilterValues.RemoveLastKeyDropsValue | src/ServiceFabric.Extensions.Data.Indexing/FilterableIndex.cs:281-285 | removing the last key of a value drops the value, so it no longer appears in the enumeration |
| FilterValues.LookupCoherent | src/ServiceFabric.Extensions.Data.Indexing/FilterableIndex.cs:77-84 | on a coherent index, a lookup finds exactly the keys whose projected value equals the query |
| FilterValues.DistinctConcat | src/ServiceFabric.Extensions.Data.Indexing/FilterableIndex.cs:157 | concatenating two duplicate-free, disjoint lists gives a duplicate-free list |
| FilterValues.CollectDistinct | src/ServiceFabric.Extensions.Data.Indexing/FilterableIndex.cs:147-158 | when each key is filed under one value, the collected keys are distinct |
| FilterValues.RangeResultDistinct | src/ServiceFabric.Extensions.Data.Indexing/FilterableIndex.cs:147 | on a coherent index each key appears at most once in a range result |
| FilterIndexes.FilterableIndex.constructor | src/ServiceFabric.Extensions.Data.Indexing/FilterableIndex.cs:39-44 | keeps the name, projection and substitution flag; the collection starts empty |
| FilterIndexes.FilterableIndex.Create | src/ServiceFabric.Extensions.Data.Indexing/FilterableIndex.cs:39-44 | a null name or projection is `ArgumentNullException` |
| FilterIndexes.FilterableIndex.Filter | src/ServiceFabric.Extensions.Data.Indexing/FilterableIndex.cs:77-84 | a value still null after substitution is `ArgumentNullException`; otherwise the keys under the substituted value, sorted ascending |
| FilterIndexes.FilterableIndex.RangeFilterHelper | src/ServiceFabric.Extensions.Data.Indexing/FilterableIndex.cs:145-161 | the keys of the selected values in ascending value order; a null start bound on a non-empty index is `NullReferenceException` |
| FilterIndexes.FilterableIndex.RangeFilter | src/ServiceFabric.Extensions.Data.Indexing/FilterableIndex.cs:89-111 | the keys between the two bounds, each inclusive or exclusive |
| FilterIndexes.FilterableIndex.RangeToFilter | src/ServiceFabric.Extensions.Data.Indexing/FilterableIndex.cs:113-127 | the keys up to the bound; never fails |
| FilterIndexes.FilterableIndex.RangeFromFilter | src/ServiceFabric.Extensions.Data.Indexing/FilterableIndex.cs:129-143 | the keys from the bound on |
| FilterIndexes.FilterableIndex.CreateEnumerable | src/ServiceFabric.Extensions.Data.Indexing/FilterableIndex.cs:166-169 | the distinct filter values, ascending |
| FilterIndexes.FilterableIndex.AddValue | src/ServiceFabric.Extensions.Data.Indexing/FilterableIndex.cs:263-266 | the private add: the key goes under the value; a null value is rejected and changes nothing |
| FilterIndexes.FilterableIndex.RemoveValue | src/ServiceFabric.Extensions.Data.Indexing/FilterableIndex.cs:268-287 | the private remove: the key leaves the value, dropping an emptied value; missing entries are `KeyNotFoundException` |
| FilterIndexes.FilterableIndex.OnAdd | src/ServiceFabric.Extensions.Data.Indexing/FilterableIndex.cs:219-223 | the add hook files the key under the substituted projected value |
| FilterIndexes.FilterableIndex.OnUpdate | src/ServiceFabric.Extensions.Data.Indexing/FilterableIndex.cs:229-242 | the update hook does nothing when the value is unchanged, and otherwise moves the key from the old value to the new |
| FilterIndexes.FilterableIndex.OnRemove | src/ServiceFabric.Extensions.Data.Indexing/FilterableIndex.cs:248-252 | the remove hook takes the key out of the substituted projected value |
| FilterIndexes.FilterableIndex.OnClear | src/ServiceFabric.Extensions.Data.Indexing/FilterableIndex.cs:258-261 | the clear hook empties the collection |
| FilterIndexes.FilterValueOf | src/ServiceFabric.Extensions.Data.Indexing/FilterableIndex.cs:207-212 | the projection's value, or `"**NA**"` in place of a null one; never null on a string index with substitution on |
| FilterIndexes.FilterableIndex.GetFilterValue | src/ServiceFabric.Extensions.Data.Indexing/FilterableIndex.cs:207-212 | `GetFilterValue`: the projection's value, or `"**NA**"` in place of a null one; never null on a string index with substitution on |
| FilterIndexes.FilterableIndex.IndexName | src/ServiceFabric.Extensions.Data.Indexing/FilterableIndex.cs:289-292 | `GetIndexName`: the collection name extends the base name and ends in the index's name |
| FilterIndexes.FilterableIndex.TryGetIndex | src/ServiceFabric.Extensions.Data.Indexing/FilterableIndex.cs:175-184 | true exactly when the registry holds the index's collection |
| FilterIndexes.FilterableIndex.GetOrAddIndex | src/ServiceFabric.Extensions.Data.Indexing/FilterableIndex.cs:190-194 | the registry holds the collection afterwards; a newly created one is empty |
| FilterIndexes.FilterableIndex.RemoveIndex | src/ServiceFabric.Extensions.Data.Indexing/FilterableIndex.cs:200-205 | the registry no longer holds the collection and its contents are gone |
| FilterIndexes.FilterFinds | src/ServiceFabric.Extensions.Data.Indexing/FilterableIndex.cs:77-84 | on a coherent index, a filter finds exactly the entries whose substituted value equals the substituted query |
| FilterIndexes.FilterNullFindsNullEntries | src/ServiceFabric.Extensions.Data.Indexing.Test/FilterableIndexTests.cs:18-53 | with substitution on, filtering for null finds the entries projected to null and those projected to `"**NA**"` |
| FilterIndexes.OnAddCoherent | src/ServiceFabric.Extensions.Data.Indexing/FilterableIndex.cs:219-223 | the add hook fails exactly on a null value, and otherwise keeps the index coherent with the primary plus the entry |
| FilterIndexes.OnUpdateCoherent | src/ServiceFabric.Extensions.Data.Indexing/FilterableIndex.cs:229-242 | the update hook with non-null values succeeds and keeps the index coherent with the updated primary |
| FilterIndexes.OnRemoveCoherent | src/ServiceFabric.Extensions.Data.Indexing/FilterableIndex.cs:248-252 | the remove hook with a non-null value succeeds and keeps the index coherent with the primary without the entry |
| FilterIndexes.CollectThree | src/ServiceFabric.Extensions.Data.Indexing/FilterableIndex.cs:155-158 | collecting over three values concatenates the lists of the selected ones in order |
| FilterIndexes.AgesOrdered | src/ServiceFabric.Extensions.Data.Indexing.Test/FilterableIndexTests.cs:210-254 | ages 25, 32 and 35 enumerate in that order |
| FilterIndexes.AgesRange | src/ServiceFabric.Extensions.Data.Indexing.Test/FilterableIndexTests.cs:210-254 | a range over those ages collects the keys of the selected ages in ascending age order |
| FilterIndexes.AgesRangeExample | src/ServiceFabric.Extensions.Data.Indexing.Test/FilterableIndexTests.cs:219-241 | with ages 25, 32 and 35, the whole range 0..100 gives all three keys in age order and 30..35 inclusive gives the keys of ages 32 and 35 |
| FilterIndexes.AgesNarrowRangeExample | src/ServiceFabric.Extensions.Data.Indexing.Test/FilterableIndexTests.cs:209-254 | 0..10 inclusive gives no key, and 30..35 exclusive gives only the key of age 32 |
| FilterIndexes.AgesOpenRangeExample | src/ServiceFabric.Extensions.Data.Indexing/FilterableIndex.cs:113-143 | on the same ages, below 32 exclusive gives the key of age 25 and from 32 inclusive the keys of ages 32 and 35 |
| LegacyFilterIndexes.LegacyProjected | src/Microsoft.ServiceFabric.Data.Indexing/FilterableIndex.cs:104-108 | the legacy projection of the primary keeps every key and applies no substitution |
| LegacyFilterIndexes.LegacyFilterableIndex.constructor | src/Microsoft.ServiceFabric.Data.Indexing/FilterableIndex.cs:27-31 | keeps the name and projection; the collection starts empty |
| LegacyFilterIndexes.LegacyFilterableIndex.Create | src/Microsoft.ServiceFabric.Data.Indexing/FilterableIndex.cs:27-31 | a null name or projection is `ArgumentNullException` |
| LegacyFilterIndexes.LegacyFilterableIndex.Filter | src/Microsoft.ServiceFabric.Data.Indexing/FilterableIndex.cs:36-40 | a null value is `ArgumentNullException`; otherwise the keys under the value, in posting-list order |
| LegacyFilterIndexes.LegacyFilterableIndex.RangeFilter | src/Microsoft.ServiceFabric.Data.Indexing/FilterableIndex.cs:45-62 | the keys of values between the bounds, both inclusive, in ascending value order; a null start on a non-empty index is `NullReferenceException` |
| LegacyFilterIndexes.LegacyFilterableIndex.AddValue | src/Microsoft.ServiceFabric.Data.Indexing/FilterableIndex.cs:147-150 | the private add: the key goes under the value; a null value is rejected |
| LegacyFilterIndexes.LegacyFilterableIndex.RemoveValue | src/Microsoft.ServiceFabric.Data.Indexing/FilterableIndex.cs:152-171 | the private remove: the key leaves the value; missing entries are `KeyNotFoundException` |
| LegacyFilterIndexes.LegacyFilterableIndex.OnAdd | src/Microsoft.ServiceFabric.Data.Indexing/FilterableIndex.cs:104-108 | the add hook files the key under the projected value |
| LegacyFilterIndexes.LegacyFilterableIndex.OnUpdate | src/Microsoft.ServiceFabric.Data.Indexing/FilterableIndex.cs:114-126 | the update hook does nothing for an unchanged value and otherwise moves the key |
| LegacyFilterIndexes.LegacyFilterableIndex.OnRemove | src/Microsoft.ServiceFabric.Data.Indexing/FilterableIndex.cs:132-136 | the remove hook takes the key out of the projected value |
| LegacyFilterIndexes.LegacyFilterableIndex.OnClear | src/Microsoft.ServiceFabric.Data.Indexing/FilterableIndex.cs:142-145 | the clear hook empties the collection |
| LegacyFilterIndexes.LegacyFilterableIndex.IndexName | src/Microsoft.ServiceFabric.Data.Indexing/FilterableIndex.cs:173-176 | `GetIndexName`: the collection name extends the base name and ends in the index's name |
| LegacyFilterIndexes.LegacyFilterableIndex.TryGetIndex | src/Microsoft.ServiceFabric.Data.Indexing/FilterableIndex.cs:68-77 | true exactly when the registry holds the collection |
| LegacyFilterIndexes.LegacyFilterableIndex.GetOrAddIndex | src/Microsoft.ServiceFabric.Data.Indexing/FilterableIndex.cs:83-87 | the registry holds the collection afterwards; a newly created one is empty |
| LegacyFilterIndexes.LegacyFilterableIndex.RemoveIndex | src/Microsoft.ServiceFabric.Data.Indexing/FilterableIndex.cs:93-98 | the registry no longer holds the collection |
| LegacyFilterIndexes.LegacyIsFinalWithoutSubstitution | src/Microsoft.ServiceFabric.Data.Indexing/FilterableIndex.cs:104-108 | the legacy index is the current one with substitution switched off |
| LegacyFilterIndexes.LegacyRangeMembers | src/Microsoft.ServiceFabric.Data.Indexing/FilterableIndex.cs:45-62 | the legacy range returns exactly the keys of values `start <= f <= end` |
| LegacyFilterIndexes.LegacyFilterFinds | src/Microsoft.ServiceFabric.Data.Indexing/FilterableIndex.cs:36-40 | on a coherent legacy index, a filter finds exactly the entries projected to the query |
| Fetch.PrimaryStore.constructor | src/ServiceFabric.Extensions.Data.Indexing/ReliableIndexedDictionary.cs:40-47 | the primary dictionary holds the given entries and the value comparer its conditional update uses |
| Fetch.Join | src/ServiceFabric.Extensions.Data.Indexing/DictionaryFetchAsyncEnumerable.cs:60-74 | at most one pair per key, and only pairs the primary holds |
| Fetch.JoinAppend | src/ServiceFabric.Extensions.Data.Indexing/DictionaryFetchAsyncEnumerable.cs:60-74 | joining a concatenation of keys is the concatenation of the joins |
| Fetch.JoinMembers | src/ServiceFabric.Extensions.Data.Indexing/DictionaryFetchAsyncEnumerable.cs:60-74 | the join is no longer than the keys, yields each present key with its stored value, and misses no present key |
| Fetch.JoinSubsequence | src/ServiceFabric.Extensions.Data.Indexing/DictionaryFetchAsyncEnumerable.cs:60-74 | the join follows the order of the keys |
| Fetch.JoinAllPresent | src/ServiceFabric.Extensions.Data.Indexing/DictionaryFetchAsyncEnumerable.cs:60-74 | when every key is present, the join pairs each key with its value, position by position |
| Fetch.FetchEnumerator.constructor | src/ServiceFabric.Extensions.Data.Indexing/DictionaryFetchAsyncEnumerable.cs:44-51 | a new enumerator stands before the first key |
| Fetch.FetchEnumerator.MoveNext | src/ServiceFabric.Extensions.Data.Indexing/DictionaryFetchAsyncEnumerable.cs:53-74 | skips keys missing from the primary; on success `Current` is the join of the keys passed over; at the end it reports false |
| Fetch.FetchEnumerator.Reset | src/ServiceFabric.Extensions.Data.Indexing/DictionaryFetchAsyncEnumerable.cs:76-79 | the enumerator goes back before the first key |
| Fetch.FetchEnumerable.constructor | src/ServiceFabric.Extensions.Data.Indexing/DictionaryFetchAsyncEnumerable.cs:20-27 | holds the primary and the keys |
| Fetch.FetchEnumerable.GetEnumerator | src/ServiceFabric.Extensions.Data.Indexing/DictionaryFetchAsyncEnumerable.cs:29-32 | a fresh enumerator over the keys, before the first one |
| Fetch.ReadAll | src/ServiceFabric.Extensions.Data.Indexing/DictionaryFetchAsyncEnumerable.cs:60-74 | enumerating to the end yields exactly the join of the keys with the primary |
| IndexedDictionaries.ContentOf | src/ServiceFabric.Extensions.Data.Indexing/ReliableIndexedDictionary.cs:18-20 | an index's content is of its own kind |
| IndexedDictionaries.Step | src/ServiceFabric.Extensions.Data.Indexing/ReliableIndexedDictionary.cs:411-447 | a hook of one index yields a content of the same kind |
| IndexedDictionaries.Notify | src/ServiceFabric.Extensions.Data.Indexing/ReliableIndexedDictionary.cs:411-447 | the indexes run the hook in order; a successful run leaves every index a content of its kind |
| IndexedDictionaries.NotifyAddCoherent | src/ServiceFabric.Extensions.Data.Indexing/ReliableIndexedDictionary.cs:411-417 | with no null filter value, the add hooks all succeed and every index becomes coherent with the primary plus the entry |
| IndexedDictionaries.NotifyUpdateCoherent | src/ServiceFabric.Extensions.Data.Indexing/ReliableIndexedDictionary.cs:426-432 | with no null filter value, the update hooks all succeed and every index becomes coherent with the updated primary |
| IndexedDictionaries.NotifyRemoveCoherent | src/ServiceFabric.Extensions.Data.Indexing/ReliableIndexedDictionary.cs:441-447 | with no null filter value, the remove hooks all succeed and every index becomes coherent with the primary without the entry |
| IndexedDictionaries.NotifyClearCoherent | src/ServiceFabric.Extensions.Data.Indexing/ReliableIndexedDictionary.cs:111-119 | the clear hooks all succeed and leave every index empty |
| IndexedDictionaries.NotifyAddNullFails | src/ServiceFabric.Extensions.Data.Indexing/ReliableIndexedDictionary.cs:411-417 | the add loop fails with `ArgumentNullException` whenever some filterable index projects the entry to null: that index's add hook (FilterableIndex.cs lines 219-223 and 263-266) uses the null value as a store key, which the store rejects |
| IndexedDictionaries.NotifyConsCoherent | src/ServiceFabric.Extensions.Data.Indexing/ReliableIndexedDictionary.cs:411-447 | coherence after the first hook and after the rest gives coherence after all of them |
| IndexedDictionaries.AllCoherentTail | src/ServiceFabric.Extensions.Data.Indexing/ReliableIndexedDictionary.cs:411-447 | the indexes after the first of a coherent family are coherent |
| IndexedDictionaries.RunHook | src/ServiceFabric.Extensions.Data.Indexing/ReliableIndexedDictionary.cs:411-447 | one index runs a hook: its content becomes that of `Step`, or the hook's error is returned |
| IndexedDictionaries.FindFilter | src/ServiceFabric.Extensions.Data.Indexing/ReliableIndexedDictionary.cs:392-394 | none exactly when no filterable index has the name; otherwise a declared filterable index with that name |
| IndexedDictionaries.IndexedDictionary.Contents | src/ServiceFabric.Extensions.Data.Indexing/ReliableIndexedDictionary.cs:18-20 | the contents of the declared indexes, one per index and of its kind |
| IndexedDictionaries.IndexedDictionary.constructor | src/ServiceFabric.Extensions.Data.Indexing/ReliableIndexedDictionary.cs:40-47 | wraps the primary and the indexes; distinct names make distinct index objects |
| IndexedDictionaries.IndexedDictionary.RunHookAt | src/ServiceFabric.Extensions.Data.Indexing/ReliableIndexedDictionary.cs:411-447 | index `i` runs the hook; the other indexes keep their contents |
| IndexedDictionaries.NotifyFail | src/ServiceFabric.Extensions.Data.Indexing/ReliableIndexedDictionary.cs:411-447 | when an index throws part way through the hook loop, that error is the outcome of the whole loop |
| IndexedDictionaries.IndexedDictionary.NotifyAll | src/ServiceFabric.Extensions.Data.Indexing/ReliableIndexedDictionary.cs:411-447 | the hook loop: succeeds exactly when `Notify` does, with its error or its contents |
| IndexedDictionaries.IndexedDictionary.Create | src/ServiceFabric.Extensions.Data.Indexing/ReliableIndexedDictionary.cs:40-47 | a null dictionary or index list is `ArgumentNullException`; a repeated filter or search name is `ArgumentException` |
| IndexedDictionaries.DistinctIndexObjects | src/ServiceFabric.Extensions.Data.Indexing/ReliableIndexedDictionary.cs:40-47 | indexes with distinct names are distinct objects |
| IndexedDictionaries.IndexedDictionary.Add | src/ServiceFabric.Extensions.Data.Indexing/ReliableIndexedDictionary.cs:59-63 | a present key is `ArgumentException` with no hook; otherwise the entry is stored, the add hooks run, and coherence is kept |
| IndexedDictionaries.IndexedDictionary.TryAdd | src/ServiceFabric.Extensions.Data.Indexing/ReliableIndexedDictionary.cs:229-238 | false with no hook for a present key; otherwise as `Add`, returning true |
| IndexedDictionaries.IndexedDictionary.GetOrAdd | src/ServiceFabric.Extensions.Data.Indexing/ReliableIndexedDictionary.cs:186-199 | the present value with no hook; otherwise the value is added with the add hooks |
| IndexedDictionaries.IndexedDictionary.AddOrUpdate | src/ServiceFabric.Extensions.Data.Indexing/ReliableIndexedDictionary.cs:80-104 | a present key gets the updated value and the update hooks see the previous value; an absent key is added; the stored value is returned; on coherent indexes with no null projection of the old or new value it succeeds and keeps them coherent |
| IndexedDictionaries.IndexedDictionary.Set | src/ServiceFabric.Extensions.Data.Indexing/ReliableIndexedDictionary.cs:206-222 | the entry is stored; update hooks with the previous value for a present key, add hooks otherwise; coherence is kept |
| IndexedDictionaries.IndexedDictionary.TryRemove | src/ServiceFabric.Extensions.Data.Indexing/ReliableIndexedDictionary.cs:265-274 | none and no hook for an absent key; otherwise the entry is removed, the remove hooks see its value, and it is returned |
| IndexedDictionaries.IndexedDictionary.TryUpdate | src/ServiceFabric.Extensions.Data.Indexing/ReliableIndexedDictionary.cs:281-295 | false with no hook unless the dictionary's value comparer finds the stored value equal to the comparison value; otherwise replaced, and the update hooks see the value read before the update, not the comparison value; coherence is kept as for the other writes |
| IndexedDictionaries.IndexedDictionary.Clear | src/ServiceFabric.Extensions.Data.Indexing/ReliableIndexedDictionary.cs:111-119 | the primary and every index end empty, and coherent |
| IndexedDictionaries.IndexedDictionary.GetFilterableIndex | src/ServiceFabric.Extensions.Data.Indexing/ReliableIndexedDictionary.cs:389-402 | `KeyNotFoundException` exactly when no filterable index has the name; `InvalidCastException` when it has another filter type; otherwise that index |
| IndexedDictionaries.IndexedDictionary.GetFilterableIndexInvalidCast | src/ServiceFabric.Extensions.Data.Indexing/ReliableIndexedDictionary.cs:396-400 | with unique names, `InvalidCastException` exactly when the named index filters on another type |
| IndexedDictionaries.IndexedDictionary.GetAll | src/ServiceFabric.Extensions.Data.Indexing/ReliableIndexedDictionary.cs:384-387 | a join of the keys with this primary |
| IndexedDictionaries.IndexedDictionary.FilterKeysOnly | src/ServiceFabric.Extensions.Data.Indexing/ReliableIndexedDictionary.cs:503-511 | the lookup's error, or the index's filter: sorted keys under the substituted value |
| IndexedDictionaries.IndexedDictionary.Filter | src/ServiceFabric.Extensions.Data.Indexing/ReliableIndexedDictionary.cs:325-336 | the lookup's or filter's error, or a join over the sorted matching keys |
| IndexedDictionaries.IndexedDictionary.RangeFilterKeysOnly | src/ServiceFabric.Extensions.Data.Indexing/ReliableIndexedDictionary.cs:473-481 | the lookup's error, or the index's range result |
| IndexedDictionaries.IndexedDictionary.RangeFilter | src/ServiceFabric.Extensions.Data.Indexing/ReliableIndexedDictionary.cs:344-355 | the lookup's or range's error, or a join over the range result |
| IndexedDictionaries.IndexedDictionary.RangeToFilterKeysOnly | src/ServiceFabric.Extensions.Data.Indexing/ReliableIndexedDictionary.cs:483-491 | the lookup's error, or the keys up to the bound |
| IndexedDictionaries.IndexedDictionary.RangeToFilter | src/ServiceFabric.Extensions.Data.Indexing/ReliableIndexedDictionary.cs:449-459 | the lookup's error, or a join over the keys up to the bound |
| IndexedDictionaries.IndexedDictionary.RangeFromFilterKeysOnly | src/ServiceFabric.Extensions.Data.Indexing/ReliableIndexedDictionary.cs:493-501 | the lookup's error, or the keys from the bound on |
| IndexedDictionaries.IndexedDictionary.RangeFromFilter | src/ServiceFabric.Extensions.Data.Indexing/ReliableIndexedDictionary.cs:461-471 | the lookup's or range's error, or a join over the keys from the bound on |
| IndexedDictionaries.IndexedDictionary.CreateIndexEnumerable | src/ServiceFabric.Extensions.Data.Indexing/ReliableIndexedDictionary.cs:309-317 | the lookup's error, or the index's distinct values ascending |
| IndexedDictionaries.IndexedDictionary.SearchNext | src/ServiceFabric.Extensions.Data.Indexing/ReliableIndexedDictionary.cs:367-382 | adding one searchable index's result keeps the union duplicate-free, keeps every key a hit, and keeps it complete unless `count` keys are reached |
| IndexedDictionaries.IndexedDictionary.SearchNextHits | src/ServiceFabric.Extensions.Data.Indexing/ReliableIndexedDictionary.cs:367-382 | after one more searchable index, every collected key lies under a query word in one of the indexes visited |
| IndexedDictionaries.IndexedDictionary.Search | src/ServiceFabric.Extensions.Data.Indexing/ReliableIndexedDictionary.cs:367-382 | `InvalidOperationException` exactly without a searchable index; otherwise distinct keys, each under a query word in some searchable index, and all of them when fewer than `count` |
| Registry.TrimSlashes | src/ServiceFabric.Extensions.Data.Indexing/IndexExtensions.cs:349 | `TrimEnd('/')`: a prefix of the name, not ending in '/', with only slashes cut off |
| Registry.BaseIndexName | src/ServiceFabric.Extensions.Data.Indexing/IndexExtensions.cs:346-350 | the scheme, the trimmed name, and one '/' |
| Registry.BaseIndexUri | src/ServiceFabric.Extensions.Data.Indexing/IndexExtensions.cs:341-344 | the base of a Uri is the base of its path |
| Registry.BaseIndexNameIgnoresTrailingSlash | src/ServiceFabric.Extensions.Data.Indexing/IndexExtensions.cs:346-350 | "a" and "a/" give the same base |
| Registry.TrimSlashesIdempotent | src/ServiceFabric.Extensions.Data.Indexing/IndexExtensions.cs:349 | trimming twice is trimming once |
| Registry.BaseIndexNameOneSlash | src/ServiceFabric.Extensions.Data.Indexing/IndexExtensions.cs:346-350 | for a name that is not only slashes, the base ends in exactly one '/' |
| Registry.BaseIndexNameOfSlashes | src/ServiceFabric.Extensions.Data.Indexing/IndexExtensions.cs:346-350 | every name made only of slashes, the empty name included, gives the base "index://" |
| Registry.StoreNamesWithin | src/ServiceFabric.Extensions.Data.Indexing/IndexExtensions.cs:330-335 | the registry holds the declared collections exactly when it holds each one |
| Registry.StoreNameShape | src/ServiceFabric.Extensions.Data.Indexing/IndexExtensions.cs:314-324 | the collection of an index (`Registry.StoreName`, the per-kind `GetIndexName`) extends the base name and ends in the index's name |
| Registry.StoreNameInjective | src/ServiceFabric.Extensions.Data.Indexing/IndexExtensions.cs:314-324 | two indexes share a collection exactly when they are of one kind with one name; a filter and a search index never collide |
| Registry.StoreNameIsNotPrimary | src/ServiceFabric.Extensions.Data.Indexing/IndexExtensions.cs:70-75 | an index collection never takes the primary's name unless that name starts with the scheme |
| Registry.OneIndexTwoCollections | src/Microsoft.ServiceFabric.Data.Indexing.Test/IndexExtensionsTests.cs:46-54 | "test" with one filterable index "index" occupies two collections, the second "index:/test/filter/index" |
| Registry.GetOrAddStore | src/ServiceFabric.Extensions.Data.Indexing/IndexExtensions.cs:320 | one index gets or adds its collection: an existing collection keeps its content, a new one starts empty |
| Registry.TryGetStore | src/ServiceFabric.Extensions.Data.Indexing/IndexExtensions.cs:333 | one index reports whether its collection exists |
| Registry.RemoveStore | src/ServiceFabric.Extensions.Data.Indexing/IndexExtensions.cs:274 | one index removes its collection, which leaves its content empty |
| Registry.EmptyContent | src/ServiceFabric.Extensions.Data.Indexing/IndexExtensions.cs:274 | a new or removed collection has the index's kind and no entries |
| Registry.EmptyIndexesCoherent | src/ServiceFabric.Extensions.Data.Indexing/IndexExtensions.cs:314-324 | empty index collections are coherent with an empty primary dictionary |
| Registry.GetOrAddIndexed | src/ServiceFabric.Extensions.Data.Indexing/IndexExtensions.cs:70-75 | afterwards the registry holds the primary and every declared collection and nothing new besides; a dictionary over exactly those indexes, or `ArgumentException` on repeated names; with distinct names each index keeps its existing content or starts empty; a dictionary created from nothing has its indexes coherent with its (empty) primary |
| Registry.GetOrAddIndexes | src/ServiceFabric.Extensions.Data.Indexing/IndexExtensions.cs:314-324 | the private loop adds exactly the declared collections to the registry, then builds the dictionary or fails with `ArgumentException` on repeated names; with distinct names each index keeps its existing content or starts empty |
| Registry.GetOrAddStoreAt | src/ServiceFabric.Extensions.Data.Indexing/IndexExtensions.cs:320 | one pass of the loop adds the i-th collection and, with distinct names, changes only the i-th index's content |
| Registry.GetOrAddStores | src/ServiceFabric.Extensions.Data.Indexing/IndexExtensions.cs:317-321 | the loop adds exactly the declared collections; with distinct names each index keeps its existing content or starts empty |
| Registry.TryGetIndexed | src/ServiceFabric.Extensions.Data.Indexing/IndexExtensions.cs:286-294 | no value exactly when the primary or some declared collection is missing; `ArgumentException` when all exist but two indexes share a name; otherwise a valid dictionary over this primary and these indexes |
| Registry.RemoveIndexed | src/ServiceFabric.Extensions.Data.Indexing/IndexExtensions.cs:265-276 | afterwards the primary and every declared collection are gone, nothing else is removed, the primary is empty and every index is empty |
| Registry.RemoveStoreAt | src/ServiceFabric.Extensions.Data.Indexing/IndexExtensions.cs:274 | one pass of the loop removes the i-th collection and keeps the earlier indexes empty |
| Registry.RemoveStores | src/ServiceFabric.Extensions.Data.Indexing/IndexExtensions.cs:270-275 | the loop removes exactly the declared collections and leaves every index empty, even when two entries share one index object |
| Registry.RemoveIndexedByName | src/ServiceFabric.Extensions.Data.Indexing/IndexExtensions.cs:197-205 | nothing happens when no dictionary has the name: the registry, the primary and every index are unchanged; otherwise the removal by Uri, leaving the primary and every index empty |

## Left out

- FilterIndexes.FilterableIndex.Filter: sorts a copy of the looked-up posting list. The source sorts the array the store returned, in place (src/ServiceFabric.Extensions.Data.Indexing/FilterableIndex.cs:81-82), so when the store hands out its own array the stored list is reordered through aliasing. In the model, stored posting lists keep their insertion order and a query never changes them.
- Transactions, commit and abort, isolation, locking, timeouts, cancellation and `async`: every operation runs to completion at once. A hook that throws leaves the model's index contents as they were reached, where the real transaction would be aborted.
- `IReliableStateManager` and `IReliableDictionary2` are not part of this model. The registry is a set of names and each collection is a Dafny `map` held by the object bound to it. A store that rejects a null key is modelled as `ArgumentNullException`.
- `DictionaryChanged` events, `Count`, `ContainsKeyAsync`, `TryGetValueAsync`, key enumeration and the other pass-through members of the facade: they forward to the primary and touch no index.
- `CreateQueryableInstance` and the LINQ query provider, and `FilterableIndex.CreateFromExpression`, which builds a projection from an expression tree.
- Culture-sensitive text: `char.IsLetterOrDigit` and `ToLower` are restricted to ASCII letters and digits, and string comparison is ordinal.
- Enumeration order of `HashSet` and `Dictionary` is modelled as insertion order. The facade's searchable indexes are visited in declaration order.
- `CreateEnumerableAsync` is modelled in ordered mode only; unordered enumeration yields the same values in an unspecified order.
- `RangeFilterType` values other than `Inclusive` and `Exclusive` (the `NotSupportedException` branches) cannot be written in the model.
- Filter values are strings, integers or null, and the model does not tie a projected value to the index's declared filter type: an index declared over integers may project null or a string, which C#'s value-typed integer filters cannot. The declared type matters only to `SubstituteNull`, which never substitutes on an integer index.
- Uri resolution is modelled as concatenation of the base, the kind and the index name. The path of a collection named by a string is taken to be that string.
- A missing collection passed to `RemoveAsync` is removed if present; what the state manager throws otherwise is not part of this model.
- IndexedDictionaries.IndexedDictionary.Search: the union of the per-index results is complete only when it holds fewer than `count` keys. Keys under a query word that the search cut off are not specified, and the final `count` limit is left to the per-index results, as in the code.
- IndexedDictionaries.IndexedDictionary.CreateIndexEnumerable: returns the values as a sequence rather than as an async enumerable.
- The `_index`-is-null state of an index whose collection has not been bound: every index is modelled as bound.
