# Sorted collections, asset metadata and Studio validation messages

A Dafny model of three small parts of the edx-platform code base:

- **The asset store's `SortedCollection`.** It is a sequence kept in order of a key derived from each item. It is held as two parallel lists, `_keys` and `_items`, with `_keys[i] == key(_items[i])` and `_keys` non-decreasing. It answers membership, position and nearest-key queries by binary search (`bisect_left` / `bisect_right`).
- **The asset store's `AssetMetadata` and `AssetThumbnailMetadata` records.** Each has an asset key that is checked at construction and a fixed set of attributes. They support a whitelist-filtered `update` and conversion to and from the document-store (MongoDB) form.
- **Studio's `StudioValidation`.**
  - It accumulates validation messages for an XBlock, plus an optional summary.
  - The message dictionaries are built by `create_message`, with optional action fields and type checks.
  - The front-end Backbone model `ValidationMessages` decides, from those messages:
    - the summary type and the summary message;
    - the display name of a type;
    - the detailed messages to list;
    - the extra CSS class of the container.

Files:

- `wrappers.dfy`: the optional value and the result of an operation that may raise, shared by the other modules.
- `python_values.dfy`: the Python values the metadata and message dictionaries hold, and Python truthiness.
- `ordering.dfy`: strict total orders and sortedness.
- `bisect.dfy`: the binary searches.
  - They are proved equal to linear-scan reference functions.
  - The same functions serve as the reference answers for every find-query.
- `sorted_collection.dfy`: the collection as a class over two sequence fields.
- `asset_metadata.dfy`: the two metadata classes.
- `studio_validation.dfy`: `create_message` and the `StudioValidation` class.
- `validation_messages.dfy`: the JavaScript `ValidationMessages` model.

External inputs are parameters:

- The current time used for a missing `edited_on` is the parameter `now`.
- The identity of a key function (compared with `is` in Python) is the token `keyId`.
- Python's `<` on keys and on items is two strict total orders, `keyLt` and `itemLt`.

Where the code and its documentation disagree, the model follows the code:

- Construction sorts the decorated pairs `(key(item), item)`. Items with equal keys therefore end up ordered by their own value, not kept in input order as a stable sort by key would keep them. The model's `SortDecorated` does the same.
- The JavaScript model's defaults declare `detailed_messages`, but every function reads `messages`. The model has a `messages` attribute that must be given.

## Model

| member | source | states |
|---|---|---|
| Bisect.FirstNotBelow | common/lib/xmodule/xmodule/assetstore/__init__.py:237-242 | the first index whose element is not below x (every earlier element is below), or the length when there is none |
| Bisect.FirstAbove | common/lib/xmodule/xmodule/assetstore/__init__.py:244-249 | the first index whose element is above x (no earlier element is), or the length when there is none |
| Bisect.LastBelow | common/lib/xmodule/xmodule/assetstore/tests/test_sortedcollection.py:46-51 | the last index whose element is below x (no later one is), or -1 |
| Bisect.LastAtMost | common/lib/xmodule/xmodule/assetstore/tests/test_sortedcollection.py:39-44 | the last index whose element is at most x (every later one is above), or -1 |
| Bisect.FirstEqual | common/lib/xmodule/xmodule/assetstore/tests/test_sortedcollection.py:25-37 | the first index holding x, below the length exactly when x occurs; no earlier element equals x |
| Bisect.NotBelowFromLeftBoundary | common/lib/xmodule/xmodule/assetstore/__init__.py:237-242 | on a sorted sequence every element from bisect_left on is not below x |
| Bisect.AboveFromRightBoundary | common/lib/xmodule/xmodule/assetstore/__init__.py:244-249 | on a sorted sequence every element from bisect_right on is above x |
| Bisect.LastBelowBeforeLeftBoundary | common/lib/xmodule/xmodule/assetstore/__init__.py:230-235 | on a sorted sequence the last element below x is at bisect_left - 1, as find_lt assumes |
| Bisect.LastAtMostBeforeRightBoundary | common/lib/xmodule/xmodule/assetstore/__init__.py:223-228 | on a sorted sequence the last element at most x is at bisect_right - 1, as find_le assumes |
| Bisect.EqualRun | common/lib/xmodule/xmodule/assetstore/__init__.py:164-182 | on a sorted sequence the elements equal to x are exactly those in [bisect_left, bisect_right) |
| Bisect.FirstEqualAtLeftBoundary | common/lib/xmodule/xmodule/assetstore/__init__.py:211-216 | on a sorted sequence the first occurrence of x is at bisect_left when that element equals x, and there is none otherwise |
| Bisect.BisectLeft | common/lib/xmodule/xmodule/assetstore/__init__.py:166 | the binary search returns exactly the first index not below x |
| Bisect.BisectRight | common/lib/xmodule/xmodule/assetstore/__init__.py:167 | the binary search returns exactly the first index above x |
| SortedCollections.KeysOf | common/lib/xmodule/xmodule/assetstore/__init__.py:99 | the key list has the items' length and keys[i] is key(items[i]) |
| SortedCollections.PairOrder | common/lib/xmodule/xmodule/assetstore/__init__.py:98 | ordering (key, item) pairs is a strict total order when keys and items are |
| SortedCollections.InsertByPairMultiset | common/lib/xmodule/xmodule/assetstore/__init__.py:98 | one sorting step adds exactly the new item to the multiset |
| SortedCollections.InsertByPairNoneBefore | common/lib/xmodule/xmodule/assetstore/__init__.py:98 | if no element comes before y and the inserted item does not either, then after one sorting step still none does |
| SortedCollections.SortDecorated | common/lib/xmodule/xmodule/assetstore/__init__.py:98 | the decorated sort keeps the multiset of items (its order is stated by SortDecoratedIsSortedPermutation) |
| SortedCollections.InsertByPairSorted | common/lib/xmodule/xmodule/assetstore/__init__.py:98 | one sorting step keeps the sequence sorted by pairs |
| SortedCollections.SortDecoratedIsSortedPermutation | common/lib/xmodule/xmodule/assetstore/__init__.py:95-101 | the decorated sort yields a permutation of the input, sorted by pairs and hence with non-decreasing keys |
| SortedCollections.SortDecoratedOfPairSorted | common/lib/xmodule/xmodule/assetstore/__init__.py:130-134 | re-sorting a sequence already sorted by pairs leaves it unchanged |
| SortedCollections.SortedInsertion | common/lib/xmodule/xmodule/assetstore/__init__.py:184-203 | inserting a key between the keys below it and the keys not below it keeps the key list sorted |
| SortedCollections.InsertAt | common/lib/xmodule/xmodule/assetstore/__init__.py:188-189 | `list.insert(p, x)`: one item longer, x at p, the items before p unchanged and those after it shifted by one, the multiset grown by x |
| SortedCollections.RemoveAt | common/lib/xmodule/xmodule/assetstore/__init__.py:208-209 | `del s[i]`: one item shorter, the items before i unchanged and those after it shifted back by one, the multiset shrunk by s[i] |
| SortedCollections.RemoveInsertedRestores | common/lib/xmodule/xmodule/assetstore/__init__.py:184-209 | deleting position p undoes inserting at p |
| SortedCollections.KeysMatchInsertion | common/lib/xmodule/xmodule/assetstore/__init__.py:188-189 | inserting a key and its item at the same position keeps keys[i] == key(items[i]) |
| SortedCollections.RemovalKeepsSortedAndMatched | common/lib/xmodule/xmodule/assetstore/__init__.py:208-209 | deleting the same position from both lists keeps them sorted and matched |
| SortedCollections.RunHoldsAllOccurrences | common/lib/xmodule/xmodule/assetstore/__init__.py:164-182 | the run [bisect_left, bisect_right) of key(x) holds every occurrence of x: membership, first position and count inside the run equal those over the whole list |
| SortedCollections.OccurrencesInMiddle | common/lib/xmodule/xmodule/assetstore/__init__.py:168-182 | when x occurs only in the middle part of a list, membership, count and first position there answer the same questions for the whole list |
| SortedCollections.InsertThenRemoveRestores | common/lib/xmodule/xmodule/assetstore/__init__.py:184-209 | after insert, the inserted item is the first occurrence, so remove deletes it and restores the item list |
| SortedCollections.InsertRightThenRemoveRestores | common/lib/xmodule/xmodule/assetstore/__init__.py:198-209 | after insert_right of an item not yet present, remove deletes that copy and restores the item list |
| SortedCollections.CopyAsWrittenReordersTies | common/lib/xmodule/xmodule/assetstore/__init__.py:130-134 | a concrete collection whose copy differs from it: [15] with key x // 10 after insert_right(12) is [15, 12], and its rebuild is [12, 15] |
| SortedCollections.SliceBound | common/lib/xmodule/xmodule/assetstore/__init__.py:139-140 | a missing bound takes its default; a bound in [0, n] is taken as is; a negative one down to -n counts from the end; one above n becomes n and one below -n becomes 0 |
| SortedCollections.Reverse | common/lib/xmodule/xmodule/assetstore/__init__.py:151-152 | the reverse has the same length and element i is element n-1-i |
| SortedCollections.SortedCollection.constructor | common/lib/xmodule/xmodule/assetstore/__init__.py:95-101 | the items are the decorated sort of the input, a permutation of it, sorted by pairs, with matching non-decreasing keys |
| SortedCollections.SortedCollection.Duplicate | common/lib/xmodule/xmodule/assetstore/__init__.py:130-134 | a new collection with the same lists, key and orders |
| SortedCollections.SortedCollection.Reinit | common/lib/xmodule/xmodule/assetstore/__init__.py:114 | re-running construction on the object sorts the new contents by the new key |
| SortedCollections.SortedCollection.SetKey | common/lib/xmodule/xmodule/assetstore/__init__.py:109-114 | the same key function changes nothing; another one re-sorts the same multiset of items by the new key |
| SortedCollections.SortedCollection.Clear | common/lib/xmodule/xmodule/assetstore/__init__.py:124-128 | both lists become empty and the key is kept |
| SortedCollections.SortedCollection.CopyAsWritten | common/lib/xmodule/xmodule/assetstore/__init__.py:130-134 | a fresh collection whose items are the re-sort of this one's items under the same key |
| SortedCollections.SortedCollection.Copy | common/lib/xmodule/xmodule/assetstore/__init__.py:130-134 | a fresh collection with the same lists, so later inserts and removals in either do not affect the other (the items themselves are values here) |
| SortedCollections.SortedCollection.Length | common/lib/xmodule/xmodule/assetstore/__init__.py:136-137 | the number of items, equal to the number of keys |
| SortedCollections.SortedCollection.GetItem | common/lib/xmodule/xmodule/assetstore/__init__.py:139-140 | an index in [-n, n) gives that item, negative indices counting from the end; any other index is an IndexError |
| SortedCollections.SortedCollection.Slice | common/lib/xmodule/xmodule/assetstore/__init__.py:139-140 | a slice `[start:stop]` has hi - lo items when the normalised bounds lo < hi, else none, and its i-th item is item lo + i; `[:]` is all the items; any slice has non-decreasing keys |
| SortedCollections.SortedCollection.Reversed | common/lib/xmodule/xmodule/assetstore/__init__.py:151-152 | the items last to first, so with non-increasing keys |
| SortedCollections.SortedCollection.SetItem | common/lib/xmodule/xmodule/assetstore/__init__.py:142-143 | item assignment always fails with NotImplementedError |
| SortedCollections.SortedCollection.DelItem | common/lib/xmodule/xmodule/assetstore/__init__.py:145-146 | item deletion always fails with NotImplementedError |
| SortedCollections.SortedCollection.Contains | common/lib/xmodule/xmodule/assetstore/__init__.py:164-168 | true exactly when the item occurs in the collection, although only the run of its key is searched |
| SortedCollections.SortedCollection.Index | common/lib/xmodule/xmodule/assetstore/__init__.py:170-175 | the position of the item's first occurrence, or ValueError exactly when it does not occur |
| SortedCollections.SortedCollection.Count | common/lib/xmodule/xmodule/assetstore/__init__.py:177-182 | the number of occurrences of the item in the whole collection |
| SortedCollections.SortedCollection.Insert | common/lib/xmodule/xmodule/assetstore/__init__.py:184-189 | key and item are inserted at bisect_left, before every equal key; the invariant holds and the other items keep their order |
| SortedCollections.SortedCollection.InsertRight | common/lib/xmodule/xmodule/assetstore/__init__.py:198-203 | key and item are inserted at bisect_right, after every equal key; the invariant holds and the other items keep their order |
| SortedCollections.SortedCollection.Replace | common/lib/xmodule/xmodule/assetstore/__init__.py:191-196 | an out-of-range index is an IndexError; a different key is a ValueError with nothing changed; otherwise only that item changes and the keys stay |
| SortedCollections.SortedCollection.Remove | common/lib/xmodule/xmodule/assetstore/__init__.py:205-209 | deletes the first occurrence from both lists, or fails with ValueError and changes nothing when there is none |
| SortedCollections.SortedCollection.FindWithIndex | common/lib/xmodule/xmodule/assetstore/__init__.py:211-216 | the first item whose key equals k, with its index, or ValueError exactly when no key equals k |
| SortedCollections.SortedCollection.Find | common/lib/xmodule/xmodule/assetstore/__init__.py:218-221 | the first item whose key equals k, or ValueError |
| SortedCollections.SortedCollection.FindLe | common/lib/xmodule/xmodule/assetstore/__init__.py:223-228 | the last item with key at most k, or ValueError when there is none |
| SortedCollections.SortedCollection.FindLt | common/lib/xmodule/xmodule/assetstore/__init__.py:230-235 | the last item with key below k, or ValueError when there is none |
| SortedCollections.SortedCollection.FindGe | common/lib/xmodule/xmodule/assetstore/__init__.py:237-242 | the first item with key at least k, or ValueError when there is none |
| SortedCollections.SortedCollection.FindGt | common/lib/xmodule/xmodule/assetstore/__init__.py:244-249 | the first item with key above k, or ValueError when there is none |
| AssetMetadataModel.InitialAttrs | common/lib/xmodule/xmodule/assetstore/__init__.py:290-298 | a new record holds exactly the allowed attributes with the given values, and edited_on falls back to the current time when not given |
| AssetMetadataModel.AllowedSetIs | common/lib/xmodule/xmodule/assetstore/__init__.py:258-260 | the allowed attributes are the five top-level and the four edit-info names |
| AssetMetadataModel.Updated | common/lib/xmodule/xmodule/assetstore/__init__.py:316-318 | after update, the attributes are the old ones plus the allowed names in the changes; every allowed entry of the changes is taken and every other attribute keeps its old value |
| AssetMetadataModel.AllowedPart | common/lib/xmodule/xmodule/assetstore/__init__.py:316-318 | the entries of a change dictionary whose names are allowed attributes |
| AssetMetadataModel.UpdateSetsOnlyAllowed | common/lib/xmodule/xmodule/assetstore/__init__.py:309-318 | update keeps the attribute set of a record and gives the same result as updating with only the allowed entries, so the other entries are ignored |
| AssetMetadataModel.UpdateIdempotent | common/lib/xmodule/xmodule/assetstore/__init__.py:309-318 | applying the same update twice equals applying it once |
| AssetMetadataModel.MongoDoc | common/lib/xmodule/xmodule/assetstore/__init__.py:320-335 | the document holds the key's path under filename and every attribute under its own name, and nothing else |
| AssetMetadataModel.FillFromComplete | common/lib/xmodule/xmodule/assetstore/__init__.py:344-354 | a document with every attribute fills all of them from the document and succeeds |
| AssetMetadataModel.FirstMissing | common/lib/xmodule/xmodule/assetstore/__init__.py:346-354 | the index of the first name the document lacks (all earlier ones present), or the number of names when none is missing |
| AssetMetadataModel.FillFrom | common/lib/xmodule/xmodule/assetstore/__init__.py:344-354 | filling stops with a KeyError naming the first name the document lacks, and succeeds exactly when none is missing |
| AssetMetadataModel.FillFromMissing | common/lib/xmodule/xmodule/assetstore/__init__.py:346-354 | a document missing an attribute gives a KeyError naming the first missing attribute in reading order |
| AssetMetadataModel.FillFromKeepsKeys | common/lib/xmodule/xmodule/assetstore/__init__.py:346-354 | filling only assigns attributes that are named in the list |
| AssetMetadataModel.MongoRoundTrip | common/lib/xmodule/xmodule/assetstore/__init__.py:320-354 | from_mongo(to_mongo()) restores every attribute, whatever the record held before |
| AssetMetadataModel.AssetMetadata.Init | common/lib/xmodule/xmodule/assetstore/__init__.py:289-298 | the record holds the key and the initial attributes |
| AssetMetadataModel.AssetMetadata.Create | common/lib/xmodule/xmodule/assetstore/__init__.py:287-298 | IncorrectAssetIdType exactly when the key's asset type is not 'asset'; otherwise a fresh valid record |
| AssetMetadataModel.AssetMetadata.Update | common/lib/xmodule/xmodule/assetstore/__init__.py:309-318 | the loop over the change dictionary leaves the attributes equal to the whitelist-filtered update |
| AssetMetadataModel.AssetMetadata.ToMongo | common/lib/xmodule/xmodule/assetstore/__init__.py:320-335 | the record's document form |
| AssetMetadataModel.AssetMetadata.FromMongo | common/lib/xmodule/xmodule/assetstore/__init__.py:337-354 | no document changes nothing; otherwise the attributes are filled in order, stopping at the first missing one |
| AssetMetadataModel.ThumbnailDoc | common/lib/xmodule/xmodule/assetstore/__init__.py:382-389 | the thumbnail document holds exactly filename (the key's path) and internal_name |
| AssetMetadataModel.AssetThumbnailMetadata.Init | common/lib/xmodule/xmodule/assetstore/__init__.py:376-377 | the record holds the key and the internal name |
| AssetMetadataModel.AssetThumbnailMetadata.Create | common/lib/xmodule/xmodule/assetstore/__init__.py:374-377 | IncorrectAssetIdType exactly when the key's asset type is not 'thumbnail'; otherwise a fresh record |
| AssetMetadataModel.AssetThumbnailMetadata.ToMongo | common/lib/xmodule/xmodule/assetstore/__init__.py:382-389 | the thumbnail's document form |
| AssetMetadataModel.AssetThumbnailMetadata.FromMongo | common/lib/xmodule/xmodule/assetstore/__init__.py:391-400 | no document changes nothing; a document without internal_name is a KeyError that changes nothing; otherwise internal_name is taken from it |
| StudioValidations.WithOptional | common/lib/xmodule/xmodule/validation.py:24-35 | an action field is added only when its value is truthy |
| StudioValidations.CreateMessage | common/lib/xmodule/xmodule/validation.py:19-36 | fails exactly when the text is not unicode (an assertion), or a given label is not unicode, or a given class or runtime event is not a string (TypeError); otherwise a well-formed message with the type and text, and each action field present exactly when given |
| StudioValidations.CreateMessageFromFields | common/lib/xmodule/xmodule/validation.py:19-36 | every well-formed message is exactly what create_message builds from its own fields |
| StudioValidations.MessageList.constructor | common/lib/xmodule/xmodule/validation.py:38-40 | a new message list is empty |
| StudioValidations.StudioValidation.constructor | common/lib/xmodule/xmodule/validation.py:38-40 | a new validation has the block id, a fresh empty message list and no summary |
| StudioValidations.StudioValidation.Copy | common/lib/xmodule/xmodule/validation.py:12-16 | a fresh validation with the block id, sharing the given message list, with no summary |
| StudioValidations.StudioValidation.Add | common/lib/xmodule/xmodule/validation.py:42-45 | appends exactly the created message at the end of the list, or fails and changes nothing; the summary is untouched and a success makes the validation non-empty |
| StudioValidations.StudioValidation.SetSummary | common/lib/xmodule/xmodule/validation.py:47-48 | replaces the summary with the created message, or fails and changes nothing; the messages are untouched |
| StudioValidations.StudioValidation.IsEmpty | common/lib/xmodule/xmodule/validation.py:50-52 | empty exactly when there are no messages and no summary |
| StudioValidations.StudioValidation.ToJson | common/lib/xmodule/xmodule/validation.py:54-61 | block id, messages and emptiness, plus a summary entry exactly when a summary is set |
| ValidationMessagesModel.SummaryType | cms/static/js/models/validation_messages.js:28-37 | "error" exactly when some message has type "error", otherwise "warning" |
| ValidationMessagesModel.StoredAfter | cms/static/js/models/validation_messages.js:13-26 | the stored summary after a request for the summary message gains a type only if it has a text; no other property changes, and a present non-null type is kept |
| ValidationMessagesModel.SummaryMessage | cms/static/js/models/validation_messages.js:13-26 | the stored summary when it has a text, otherwise the default text; a missing or null type becomes the summary type and a present non-null one is kept |
| ValidationMessagesModel.SummaryMessageStable | cms/static/js/models/validation_messages.js:13-26 | asking for the summary message a second time writes nothing more and returns the same message |
| ValidationMessagesModel.NotConfiguredOnlyFromStored | cms/static/js/models/validation_messages.js:13-37 | the summary message has type "not-configured" exactly when the stored summary has a text and that type |
| ValidationMessagesModel.DisplayName | cms/static/js/models/validation_messages.js:39-53 | "Warning" for "warning", "Error" for "error", null for any other value |
| ValidationMessagesModel.SummaryTypeHasDisplayName | cms/static/js/models/validation_messages.js:28-53 | a derived summary type always has a display name; "not-configured" has none |
| ValidationMessagesModel.JsRecord.constructor | cms/static/js/models/validation_messages.js:19 | a new object with the given properties |
| ValidationMessagesModel.ValidationMessages.constructor | cms/static/js/models/validation_messages.js:6-11 | given attributes are kept; a missing summary is an empty object and missing flags are false |
| ValidationMessagesModel.ValidationMessages.GetSummaryType | cms/static/js/models/validation_messages.js:28-37 | "error" exactly when some message has type "error", else "warning"; never "not-configured" |
| ValidationMessagesModel.ValidationMessages.GetSummaryMessage | cms/static/js/models/validation_messages.js:13-26 | returns the stored summary object itself when it has a text, written in place, and a fresh default message otherwise, which leaves the stored one unchanged |
| ValidationMessagesModel.ValidationMessages.DetailedMessages | cms/static/js/models/validation_messages.js:55-60 | no messages when only the summary is shown, else all of them |
| ValidationMessagesModel.ValidationMessages.AdditionalClasses | cms/static/js/models/validation_messages.js:62-68 | "no-container-content" exactly for a root whose stored summary has a text and type "not-configured" and that lists no detailed messages, else ""; the stored summary is written to only for a root |

## Left out

- `SortedCollection.__repr__` and `__reduce__`: string formatting and pickling.
- `SortedCollection.__iter__`: it is the items in order, which are the `items` field itself.
- The default identity key (`key=None`) and deleting the key (`_delkey`): the model keeps the key type apart from the item type. A collection keyed by identity is an instance with `K` equal to `T`, built by the caller with the identity function.
- Key-function identity (`is`) is modelled by the token `keyId`. SortedCollections.SortedCollection.SetKey requires that equal tokens mean equal functions.
- Python's `sorted` is modelled by the insertion sort `SortDecorated`. Its order on pairs is the same, but its running time is not.
- Python's comparison of arbitrary values is modelled as two strict total orders given to the collection. Values that compare inconsistently are not modelled.
- Items that are equal under Python's `==` but distinguishable, such as `2` and `2.0`, are one value in the model, because the item order is total. In Python the stable sort keeps such items in input order, `insert` puts the new one first among them, and `find`, `index` and `remove` pick the first of them. The model cannot tell which of them is meant.
- SortedCollections.SortedCollection.Contains, Index, Count, Remove, Copy: items are modelled as immutable values and the key as a function of them, so `keys[i] == key(items[i])` cannot be broken from outside the collection. In Python the items are objects shared with the caller. If a caller changes a resident item so that its key changes (for instance its `'filename'` under `itemgetter('filename')`), `_keys` goes stale. `__contains__`, `index`, `count` and `remove` then search the wrong run of keys and can miss an item that is in `_items`. Keeping keys stable is the caller's obligation, and the model assumes it. `copy` also shares the item objects between the copy and the original, which the model cannot express.
- The key function is total in the model. A Python key such as `str.lower` or `itemgetter('filename')` can raise on some items, and that exception is not modelled.
- SortedCollections.SortedCollection.Slice: slices with a step (`coll[::2]`, `coll[::-1]`), which `__getitem__` also accepts, are not modelled; only `[start:stop]` is.
- `AssetMetadata.__repr__`, the `@contract` runtime type checks and `field_decorator`: formatting, a third-party contract library and a caller-supplied key transformer.
- `AssetKey` is reduced to its `asset_type` and `path`.
- `datetime.now(pytz.utc)` is the parameter `now`.
- AssetMetadataModel.AssetMetadata.Update: visits the change dictionary in an arbitrary order. Python iterates in the dictionary's own order, but the result does not depend on it.
- The base class `xblock.validation.Validation` is not part of this model. Its assumed behaviour:
  - its `create_message` returns exactly `{type, text}` without checks;
  - its message list starts empty;
  - its `to_json` has `xblock_id`, `messages` and `is_empty`.
- Python truthiness of a validation (`__nonzero__`) and `+` on validations belong to the base class and are not modelled.
- StudioValidations.StudioValidation.Copy: takes the block id and the message list of the validation being copied, not the validation object.
- The message-type registry (`contains`) of the base class is not modelled. Only the constants `warning`, `error` and `not-configured` are.
- Python 2 `unicode` and `str` are tags on a string value. No encoding is modelled.
- `assert` statements are modelled as always enabled. Under `python -O` the unicode check on the text disappears.
- `gettext` is the identity on its literal strings.
- JavaScript `in` is modelled on an object's own properties; inherited properties are not. The stored summary is assumed to be an object and `messages` an array of objects. Anything else makes the JavaScript throw, which is not modelled.
- Backbone's attribute store, events and `set` are not modelled: the attributes are fixed at creation.
- Backbone shares one default `summary` object among all models created without a summary. The model gives each such model its own empty object. Nothing modelled writes to an object without a text, so no modelled operation can see the difference.
- The markup helper, the mobile API tests, the password-reset front end and the module-loader configuration are not part of this model.

## Findings

| source | as written | input that shows it | evidently intended | confidence | as-written member | corrected member |
|---|---|---|---|---|---|---|
| common/lib/xmodule/xmodule/assetstore/__init__.py:130-134 | `copy` builds a new collection from this one's items, which re-sorts items with equal keys by their own value | key x // 10; build from [15]; `insert_right(12)` gives [15, 12]; `copy()` gives [12, 15] | a copy with the same contents in the same order | not executed | SortedCollections.SortedCollection.CopyAsWritten, SortedCollections.CopyAsWrittenReordersTies | SortedCollections.SortedCollection.Copy |
