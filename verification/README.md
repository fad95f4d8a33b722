# JsonSorter in Dafny

A model of the logic of the `JsonSorter` React component, with proofs about it.
The user of the component uploads a JSON file holding an array of records,
picks one of the first record's keys and sorts the records by the string form
of their values at that key. When the first sorted record has an `"id"`, every
record's id is then rewritten to its 1-based position.

The component's state (`jsonData`, `keys`, `selectedKey`) is the datatype
`JsonSorter.State`. Its three handlers are pure transitions:

- `Load`: the `onload` callback of `handleFileUpload`. It takes the value
  JSON.parse produced, or `None` when JSON.parse threw.
- `SelectKey`: the key dropdown's `onChange`.
- `Sort`: `handleSort`.

The files:

- `JsonValue.dfy`: parsed JSON values (`Json`), with object members kept in
  enumeration order. It also has the JavaScript coercions the component
  relies on:
  - `Object.keys` and object spread (`Entries`, `Keys`);
  - property lookup and `in` (`Lookup`, `HasProperty`);
  - `toString` (`ToString`, `KeyString`);
  - the decimal text of array indices and of new ids (`NatToString`).
- `Collation.dfy`: the string order that stands in for `localeCompare`.
- `StableSort.dfy`: the comparator of `handleSort` and a stable insertion
  sort by it. The sort is generic over the record type and over the function
  that gives a record's key string. Properties proved:
  - the sort permutes its input;
  - the result is ordered;
  - tied records keep their input order;
  - when every record has a value at the key, the result is the only
    ordered, tie-preserving arrangement of the input, so any stable sort by
    this comparator agrees with it.
- `Renumbering.dfy`: `{...item, id: index + 1}` and the test that decides
  whether it is applied.
- `JsonSorter.dfy`: the state, the transitions, and their properties.
- `Scenarios.dfy`: concrete runs. One is uploading two records, choosing a
  key and sorting. Others cover ties, a `[null]` upload, an array as first
  record, and a comparator that is inconsistent on a missing value.

Where the code's behaviour is surprising, the model follows the code:

- The renumbering test looks at the first record after sorting. Records that
  had no `"id"` gain one.
- `[null]` passes the shape test, because `typeof null` is `"object"`.
  `setJsonData` is therefore called before `Object.keys(null)` throws. The
  data is replaced, the keys and the selected key stay as they were, and the
  parse-error alert is shown (`Load`, `NullFirstRecordLoadsHalfway`).
- An array as the first element passes the shape test. Its index names
  become the keys (`ArrayFirstRecordLoads`).
- `handleSort` only checks that a key is selected. If a record's value at the
  key is missing or null, the comparator is not antisymmetric
  (`MissingValueBreaksComparator`). `Sort` therefore requires every record to
  have a value at the key (`Sortable`).
- Renumbered ids are numbers, and their string forms sort "10" before "2".
  So with ten or more records, sorting by `"id"` leaves them out of order,
  and sorting again moves records (`IdSortNotOrdered`). The order and
  idempotence lemmas therefore exclude the key `"id"`.

## Model

| member | source | states |
|---|---|---|
| JsonSorter.Load | src/JsonSorter.js:14-29 | The load succeeds silently exactly when the parsed value is a non-empty array whose first element is an object or an array. Then data is the array, keys are the first element's keys in order, and the selected key is "". The invalid-format alert shows exactly when the value fails the shape test. A parse failure or a shape failure leaves the state unchanged. A null first element replaces the data, keeps keys and selected key, and shows the parse-error alert. |
| JsonSorter.LoadedKeysDescribeFirstRecord | src/JsonSorter.js:21-22 | After a successful load the data is non-empty, and a name is a key exactly when the first record has that property. |
| JsonSorter.SelectKey | src/JsonSorter.js:73-76 | Choosing a key changes only the selected key. |
| JsonSorter.TransitionsKeepSelectable | src/JsonSorter.js:21-23 | Load, key choice and sort all keep the selected key either "" or one of the keys. |
| JsonSorter.Sort | src/JsonSorter.js:35-50 | Keys, selected key and length are unchanged. With no key selected the data is unchanged. Without renumbering the data becomes the stable sort of the data. |
| JsonSorter.SortSpec | src/JsonSorter.js:42-47 | Each result record is the sorted record at its position. When the first sorted record has an "id", every result record's id is its 1-based position. Every other property, and the order of the other members, equals the sorted record's. |
| JsonSorter.SortOrders | src/JsonSorter.js:37-39 | With a key other than "id", every result record has a value at the key and the result is ordered by the comparator. |
| JsonSorter.SortPermutes | src/JsonSorter.js:37 | Without renumbering, the result holds the same records as the input, each as many times. |
| JsonSorter.SortStable | src/JsonSorter.js:37-39 | Without renumbering, records whose key strings are equal keep their input order. |
| JsonSorter.SortPermutesApartFromIds | src/JsonSorter.js:37-47 | With each record's "id" removed, the result and the input are the same bag of records. |
| JsonSorter.SortByStripped | src/JsonSorter.js:37 | Sorting keeps the bag of records with their ids removed. |
| JsonSorter.PointwiseStripped | src/JsonSorter.js:43-46 | Two sequences whose records agree apart from "id", position by position, have the same stripped bag. |
| JsonSorter.SortIdempotent | src/JsonSorter.js:35-50 | With a key other than "id", sorting the result again is allowed and gives the same state. |
| StableSort.SortBy | src/JsonSorter.js:37-39 | The sort keeps the length and the multiset of records. |
| StableSort.Insert | src/JsonSorter.js:37-39 | Inserting one record adds exactly that record to the multiset. |
| StableSort.SortByStable | src/JsonSorter.js:37-39 | For every key string, the records with that string appear in the same order in the result as in the input. |
| StableSort.SortByOrdered | src/JsonSorter.js:37-39 | When every record has a value at the key, each record of the result sorts no later than every record after it. |
| StableSort.SortByUnique | src/JsonSorter.js:37-39 | When every record of the input, and of the candidate, has a value at the key: any ordered sequence that keeps every tie group of the input in input order equals the sort's result. |
| StableSort.SortByOrderedInput | src/JsonSorter.js:37-39 | When every record has a value at the key, sorting an already ordered sequence returns it unchanged. |
| StableSort.OrderedTiesDetermine | src/JsonSorter.js:37-39 | Two ordered sequences with the same tie groups, in which every record has a value at the key, are equal. |
| StableSort.InsertTies | src/JsonSorter.js:37-39 | Insertion puts the new record at the front of its own tie group and leaves every other tie group unchanged. |
| StableSort.InsertOrdered | src/JsonSorter.js:37-39 | Inserting a keyed record into an ordered, keyed sequence gives an ordered sequence. |
| StableSort.RecordCompareAntisymmetric | src/JsonSorter.js:38 | On keyed records, swapping the operands negates the comparator. |
| StableSort.RecordCompareTransitive | src/JsonSorter.js:38 | On keyed records, "sorts no later than" is transitive. |
| StableSort.StrictlyBeforeNotTied | src/JsonSorter.js:38 | A record the comparator puts strictly first has a value at the key, and its string form differs from the other record's. |
| Collation.Compare | src/JsonSorter.js:38 | The string comparison returns -1, 0 or 1, and returns 0 exactly on equal strings. |
| Collation.CompareAntisymmetric | src/JsonSorter.js:38 | Swapping the strings negates the comparison. |
| Collation.CompareTransitive | src/JsonSorter.js:38 | "Sorts no later than" on strings is transitive. |
| JsonValue.Keys | src/JsonSorter.js:22 | `Object.keys` lists as many names as the value has members, and a name is listed exactly when the value has that property. |
| JsonValue.KeyString | src/JsonSorter.js:38 | The optional-chained string form is present exactly when the property exists and is not null. For a string value it is the string itself. |
| JsonValue.FindFieldSpec | src/JsonSorter.js:38 | A property lookup finds a value exactly when some member has the name, and the value found is one of that name's members. |
| JsonValue.NatToStringRoundTrip | src/JsonSorter.js:45 | The decimal text of a new id reads back as that number. |
| JsonValue.NatToStringInjective | src/JsonSorter.js:45 | Different positions get different id texts. |
| Renumbering.SetField | src/JsonSorter.js:44-45 | After spreading and then setting `id`, the id has the new value. Other properties are unchanged, and so are the other members and their order. When the record had no id, the member is added last. |
| Renumbering.SetFieldInPlace | src/JsonSorter.js:44-45 | When the record has a member called `name`, the result is the members before the first one, then `name` with the new value in that place, then the later members other than `name`. |
| Renumbering.WithIdKeepsPlace | src/JsonSorter.js:43-46 | An existing "id" keeps its place among the copy's members: the members before it, then the new id, then the later members other than "id". |
| Renumbering.Without | src/JsonSorter.js:44 | Removing a name removes every member called that and keeps every other property's value. |
| Renumbering.WithId | src/JsonSorter.js:43-46 | The copy is an object that has an "id". |
| Renumbering.WithIdSpec | src/JsonSorter.js:43-46 | The copy's id is the given number. Every other property equals the original record's, and the other members keep their order. A record without an "id" gets it appended after all its members. |
| Renumbering.Renumber | src/JsonSorter.js:43-46 | The map keeps the length, and every record it produces is an object. |
| Renumbering.ReorderIds | src/JsonSorter.js:42 | The length is unchanged. When the first record has no "id", the sequence is returned as it is. |
| Renumbering.ReorderIdsSpec | src/JsonSorter.js:42-46 | When the first record has an "id", every record's id becomes its 1-based position, including records that had none. No other property changes. |
| Renumbering.ReorderIdsKeepsOtherMembers | src/JsonSorter.js:43-46 | Renumbering leaves the members other than "id", and their order, as they were. |
| Renumbering.ReorderIdsIdempotent | src/JsonSorter.js:42-46 | Renumbering its own output changes nothing. |
| Renumbering.SetFieldIdempotent | src/JsonSorter.js:44-45 | Setting the same member to the same value twice is setting it once. |
| StableSort.RecordCompare | src/JsonSorter.js:38 | The comparator returns -1, 0 or 1. It returns 0 exactly when the first record has no value at the key (undefined, which the sort reads as 0), or when the first record's string equals the second's. A missing second value counts as the string "undefined". |
| JsonValue.ToString | src/JsonSorter.js:38 | An array of one non-null element has that element's string form. An array of n elements has a string form of at least n - 1 characters, for its commas. |
| JsonValue.ArrayToStringJoins | src/JsonSorter.js:38 | An array's string form is its elements' string forms joined by commas, with null elements written as nothing. |
| JsonValue.LookupSpec | src/JsonSorter.js:38 | `v[name]` is defined, and `name in v` holds, exactly when some own property is called `name`. The value is then that of the first such property. |
| JsonValue.ArrayIndexLookup | src/JsonSorter.js:38 | An array's property named by an index's decimal text is the element at that index. No index beyond the end is a property. |
| JsonSorter.PassesShapeCheck | src/JsonSorter.js:16-19 | A value passes the shape test exactly when it is a non-empty array whose first element is an object, an array or null. |
| Renumbering.FirstHasId | src/JsonSorter.js:42 | The renumbering test holds exactly when there is a first record and "id" is among its keys. |
| JsonSorter.IdSortNotOrdered | src/JsonSorter.js:37-46 | Sorting ten or more records by "id" gives data that is not ordered by the comparator, since the rewritten id "10" sorts before "2". The result remains sortable, and sorting it again moves records. |
| Scenarios.UploadSelectSort | src/JsonSorter.js:14-50 | Uploading `[{"id":1,"name":"Bob"},{"id":2,"name":"Alice"}]`, choosing "name" and sorting gives `[{"id":1,"name":"Alice"},{"id":2,"name":"Bob"}]`. |
| Scenarios.TiedRecordsKeepTheirOrder | src/JsonSorter.js:37-46 | Two records tied on the key keep their input order, and all three records are renumbered. |
| Scenarios.NoIdNoRenumbering | src/JsonSorter.js:42 | Records without an "id" are sorted and gain no id. |
| Scenarios.NullFirstRecordLoadsHalfway | src/JsonSorter.js:19-28 | Loading `[null]` replaces the data, keeps keys and selected key, and shows the parse-error alert. |
| Scenarios.ArrayFirstRecordLoads | src/JsonSorter.js:17-23 | An array as the first element loads, and its index names "0", "1" become the keys. |
| Scenarios.MissingValueBreaksComparator | src/JsonSorter.js:38 | The comparator calls a record lacking the key equal to one that has it, but not the other way round. |

## Left out

- JSON.parse and JSON.stringify are foreign library calls. `Load` takes the parse result as `Option<Json>`, and the download's serialisation is not modelled.
- FileReader, Blob, object URLs and the download link click (`handleDownload`) are asynchronous browser I/O.
- The JSX rendering is UI and is not modelled. This includes the table's cell display rule.
- React's state batching and re-render timing are framework behaviour. A handler's state updates are applied together.
- `localeCompare`'s locale-specific collation is replaced by lexicographic order on characters. That order is a total order, which is all the proofs use.
- `Number.prototype.toString` is floating-point formatting. A number is carried as the text it formats to (`JNum`). The new ids are written as decimal text.
- The enumeration order of object members is taken as given by the parsed `fields` list. Duplicate member names, which JSON.parse merges, are not normalised.
- Some properties are not modelled: the character-index properties of string records, the own non-enumerable `length` of arrays and strings, and properties inherited through the prototype chain. A primitive record has no own properties here. So `Sortable` rejects, for example, `[{"length":"x"},[1]]` with key "length", which the component sorts consistently because `[1].length` is 1.
- A record value that is an object with its own `"toString"` member is not modelled specially, and neither is an array holding one. JSON can only give that member a non-function value, so `?.toString()` throws in the component. `KeyString` gives such an object the string "[object Object]".
- Sort: requires every record to have a non-null value at the selected key (`Sortable`). The source has no such guard, and the cases it excludes behave in two ways. Records lacking the key, or holding null there, give an inconsistent comparator, so the result depends on the engine's sort algorithm. A null record makes the comparator's property read throw. A null or primitive record that ends up first makes the `"id" in` test of line 42 throw, even when the comparator never runs, as with `[null]`. In both cases `handleSort` stops before `setJsonData`, and the state is unchanged.
- SortOrders: stated only for keys other than "id". With key "id" and renumbering, the result is ordered by position and not by the comparator.
- SortIdempotent: stated only for keys other than "id", for the same reason.
- SortPermutes: stated only when no renumbering happens. With renumbering, `SortPermutesApartFromIds` states the permutation with ids set aside.
- SortStable: stated only when no renumbering happens. With renumbering, `SortSpec` relates each result record to the stably sorted record at its position.
- The input array not being mutated (the sort works on a copy) holds by construction: every transition is a pure function.
