# mongoose-crudl, modelled in Dafny

mongoose-crudl is a thin CRUD facade over a Mongoose `Model`. It has seven
operations: `list`, `createOne`, `readOne`, `updateOne`, `patchOne`,
`deleteOne` and `deleteMany`. Each one builds a filter or a candidate
record from `params` and `body` with JavaScript object spread, calls the
store, and wraps the answer in `{ status, result }`. Only `updateOne`
translates failures: its catch block maps them to Conflict, Validation
or Internal errors. A missing record is reported with the facade's own
`NotFoundError`, whose message prints the filter as JSON.

The model runs these operations against an abstract in-memory collection.

- `Objects`: plain JavaScript objects as ordered entry lists with
  JavaScript's assignment, `delete` and spread semantics.
- `Json`: `JSON.stringify` of a flat object, and `parseInt` of a decimal
  digit string.
- `Errors`: `NotFoundError`, the native faults, and `updateOne`'s
  classifier.
- `Filters`:
  - the `{ _id, ...paramsCopy }` filter shared by the single-record
    operations;
  - equality matching, in which an `undefined` criterion is left out of
    the query and `null` also matches a missing field.
- `Store`: the collection (`class Collection`), which holds:
  - the records, in store order;
  - the schema's required paths and unique paths;
  - a `connected` flag.

  It also gives the store's own operations on those records: `findOne`,
  `find` with sort, skip and limit, `count`, `save`,
  `findByIdAndUpdate` with `$set` semantics, `findOneAndRemove` and
  `deleteMany`. The invariant `Valid()` says that every record has a
  present `_id` and a `createdAt` date, and that no two records share an
  `_id` or an index key on a unique path. As in a non-sparse MongoDB
  unique index, a missing field is indexed as `null`
  (`Store.IndexKey`).
- One module per operation. The write operations follow one pattern:
  - a function states what the operation settles to, as a response plus
    the records the collection then holds;
  - lemmas state each case;
  - the method commits that outcome to the collection, and only on
    success.

  `readOne` only reads, so it is a method with direct postconditions.
  `list` reassigns its option variables and updates the caller's filter
  object in place (`List.ObjectRef`).

Three inputs come in as arguments:
- the generated ObjectId of a new record (`freshId`);
- the clock reading (`now`);
- the connection state (`Collection.connected`).

Two points about the program itself:
- `updateOne` is not a full replacement: it writes with
  `findByIdAndUpdate(_id, newData)`, which Mongoose sends as `$set`, so
  stored fields that the candidate lacks are kept. Only validation sees
  the candidate alone.
- src/_errors.db.test.js expects every operation to wrap connection
  errors, but only src/updateOne.js has a catch block. Every other
  operation lets the native fault through (`Errors.Unclassified`,
  `Error.Native`).

## Model

| member | source | states |
|---|---|---|
| Objects.Put | src/updateOne.js:15 | after `o[k] = v` the key reads `v`, every other key reads as before, an existing key keeps its place and a new key is appended |
| Objects.Delete | src/updateOne.js:7 | after `delete o[k]` the key is absent, the other keys read as before and keep their order |
| Objects.Spread | src/updateOne.js:9 | in `{...a, ...b}` a key of `b` reads from `b` and every other key reads from `a`; well-formedness is kept |
| Objects.SpreadKeys | src/patchOne.js:8 | the keys of a spread are those of `a` in place, followed by the new keys of `b` in `b`'s order |
| Objects.SpreadFresh | src/deleteMany.js:2 | spreading onto an object with no shared key appends the entries in order, so `Object.assign({}, o)` equals `o` |
| Objects.Defined | src/updateOne.js:19 | dropping `undefined` entries keeps every other entry's value and removes only those keys |
| Json.ParseInt | src/list.js:10-16 | `parseInt` of a decimal digit string; stated by `Json.ParseIntOfDecimal` and `Json.ParseIntLeadingZero` |
| Json.ObjJson | src/errors/NotFoundError.js:3 | `JSON.stringify` of a flat object: braces around its members joined by commas; stated by `Json.MembersDefined`, `Json.ObjJsonFirst` and `Json.TwoIdsJson` |
| Json.MembersDefined | src/errors/NotFoundError.js:3 | the printed members are exactly the object's defined entries, one `"key":value` per entry in insertion order; `undefined` entries are left out |
| Json.ParseIntOfDecimal | src/list.js:10-16 | `parseInt` of the decimal numeral of `n` is `n` |
| Json.ParseIntLeadingZero | src/list.js:10-16 | a leading zero does not change what `parseInt` reads |
| Json.UnescapeEscape | src/errors/NotFoundError.js:3 | `JSON.stringify`'s string escaping can be undone, so two different filter strings never print the same |
| Json.EscapePlain | src/errors/NotFoundError.js:3 | a string without quotes, backslashes or control characters is printed verbatim |
| Json.ObjJsonFirst | src/errors/NotFoundError.js:3 | an object's first defined entry is printed first, right after the opening brace |
| Json.TwoIdsJson | src/errors/NotFoundError.js:3 | `{_id, refId}` of two ObjectIds prints as `{"_id":"<hex>","refId":"<hex>"}` |
| Errors.NewNotFoundError | src/errors/NotFoundError.js:2-6 | the error has status 404, name `NOT_FOUND`, and the message `<modelName> with <JSON filter> is not found.` |
| Errors.NotFoundMessageShape | src/errors/NotFoundError.js:3 | the message starts with the model name, ` with ` and the filter's first member, and ends with `} is not found.` |
| Errors.NotFoundMessageTwoIds | src/errors/NotFoundError.js:3 | the exact message for a not-found on `{_id, refId}` |
| Errors.Unclassified | src/patchOne.js:9-18 | without a classifier, a not-found stays a not-found and every other fault reaches the caller unchanged |
| Errors.Classify | src/updateOne.js:25-39 | precedence: not-found unchanged, then code 11000 becomes Conflict, then `ValidationError`/`CastError` become Validation, otherwise Internal with `name: message`; it never yields a native fault |
| Filters.RestParams | src/updateOne.js:5-7 | the params copy without `id` reads like params on every other key and keeps their order |
| Filters.ResolveFilter | src/updateOne.js:5-9 | the filter's `_id` is `params._id` when given, else `params.id`; it has no `id`; every other key reads like params |
| Filters.ResolveFilterKeys | src/patchOne.js:4-8 | the filter's keys are `_id` first, then the remaining params in insertion order |
| Filters.ResolveFilterFirst | src/readOne.js:8 | with no `_id` param, the filter's first entry is `_id: params.id` |
| Filters.MatchesLookup | src/readOne.js:9 | a record matching a filter meets each of its criteria |
| Filters.ResolvedMatch | src/readOne.js:8-9 | a record matching the resolved filter carries the requested `_id` and every other non-null param |
| Filters.FieldMatches | src/readOne.js:9 | the store's criterion test: an `undefined` criterion matches every record, `null` matches a missing or null field, any other value matches only itself; `Filters.MatchesLookup` and `Filters.ResolveWithoutId` state its consequences |
| Filters.Matches | src/readOne.js:9 | a record matches a filter when it meets every criterion; stated by `Filters.MatchesLookup`, `Filters.ResolvedMatch` and `Store.Matching` |
| Filters.ResolveWithoutId | src/readOne.js:4-9 | with neither `id` nor `_id` in params, the filter `{ _id: undefined, ...params }` selects exactly the records that params alone select |
| Store.FirstMatch | src/readOne.js:9 | `findOne` gives the first record in store order that matches; `None` only when none does |
| Store.Matching | src/list.js:19 | `find` selects exactly the matching records |
| Store.Remaining | src/deleteMany.js:4 | `deleteMany` keeps exactly the records that do not match |
| Store.MatchingPartition | src/deleteMany.js:4 | matching and remaining records together are the whole collection, as a multiset and in number |
| Store.EmptyFilterMatchesAll | src/deleteMany.js:2-4 | the empty filter matches everything and leaves nothing |
| Store.NoMatches | src/deleteMany.js:4 | a filter nothing matches selects nothing and keeps everything |
| Store.MissingCollide | src/createOne.js:3 | two records that both lack a uniquely indexed path, or hold `null` on it, collide, as a non-sparse unique index rejects the second |
| Store.RemainingValid | src/deleteMany.js:4 | removing the matches keeps the collection valid |
| Store.RemoveAt | src/deleteOne.js:14 | removing one record keeps the others, in order, and removes exactly that record |
| Store.RemoveAtValid | src/deleteOne.js:14 | after the removal the collection is valid and no record has the removed `_id` |
| Store.FindById | src/updateOne.js:19 | in a valid collection, a lookup by a stored `_id` finds exactly that record |
| Store.MissingRequired | src/updateOne.js:16-17 | a path is reported missing exactly when it is required and absent or null |
| Store.ValidationFault | src/updateOne.js:17 | validation fails with a `ValidationError` without a code |
| Store.Stamp | src/createOne.js:2-3 | a saved record is stored properly, takes the candidate's `_id` or a fresh one, gets `createdAt` now, and keeps every other defined field |
| Store.SetOf | src/updateOne.js:19 | the `$set` drops undefined keys and the immutable `createdAt` and keeps everything else |
| Store.UpdateByIdWritten | src/updateOne.js:19 | a written update replaces the record with that `_id`, keeps `_id` and `createdAt`, takes the defined fields of the data, keeps the rest and keeps the collection valid |
| Store.WrittenById | src/patchOne.js:18 | the written record has the requested `_id` and the data's defined fields, replaces the record with that `_id`, and is stored |
| Store.WrittenValid | src/patchOne.js:18 | a written update keeps the collection valid |
| Store.SetOverRecord | src/updateOne.js:19 | setting the data over a stored record keeps `_id` and `createdAt` and takes the defined fields |
| Store.ReplaceValid | src/updateOne.js:19 | replacing one record by one that clashes with no other keeps the invariant |
| Store.UpdateById | src/updateOne.js:19 | `findByIdAndUpdate(id, data, { new: true })`; stated by `Store.UpdateByIdWritten`, `Store.WrittenById` and `Store.WrittenValid` |
| Store.ValidateAndWrite | src/updateOne.js:16-19 | validate the candidate, then write it by `id` and call `toObject()` on the answer; stated by `Store.WriteStoresData` and `Store.WriteKeepsValid` |
| Store.WriteStoresData | src/updateOne.js:16-19 | a write that got through validated the data, is the store's report, and returns the stored record with the requested `_id` and the data's fields |
| Store.WriteKeepsValid | src/updateOne.js:16-19 | validate-then-write keeps the collection valid |
| Store.AppendValid | src/createOne.js:3 | inserting a record that clashes with none keeps the invariant, and a lookup by its `_id` finds it at the end |
| Store.InsertSortedMultiset | src/list.js:19 | inserting adds exactly that record |
| Store.InsertSortedSorted | src/list.js:19 | inserting into a sorted list keeps it sorted |
| Store.SortByCreatedAt | src/list.js:19 | the result is sorted by `createdAt` and is a permutation of the input |
| Store.SortRecords | src/list.js:19 | every sort option gives a permutation; a `createdAt` sort is also sorted |
| Store.Page | src/list.js:19 | skip then limit: the page is the consecutive run starting at `skip`, of length `limit` (or the rest when the limit is 0 or longer than the rest) |
| Store.PageOfFive | src/list.js:19 | skip 1 and limit 2 over five records gives the second and the third |
| ReadOne.ReadOne | src/readOne.js:3-18 | disconnected it rejects with the native fault; it rejects with `NotFoundError` on the resolved filter exactly when nothing matches; otherwise status 200 with the first match, which meets the filter; it changes nothing |
| UpdateOne.UpdateAttempt | src/updateOne.js:4-24 | the `try` block: filter, not-found precheck, candidate, validation and write; its cases are stated by the `UpdateOne` lemmas below |
| UpdateOne.UpdateResult | src/updateOne.js:4-39 | the `try` block with its catch-block classifier, as a response plus the records then held; stated by `UpdateOne.UpdateFailureWritesNothing` through `UpdateOne.UpdateKeepsValid` |
| UpdateOne.UpdateData | src/updateOne.js:15 | in the candidate, params win over `_id` and `_id` over the body; no key but these enters |
| UpdateOne.UpdateIgnoresOriginal | src/updateOne.js:15-17 | a required path that neither body nor params hold is missing from the candidate, whatever the stored record has |
| UpdateOne.UpdateFailureWritesNothing | src/updateOne.js:25-39 | a failed update leaves the records as they were and is always a classified error; a success is status 200 with a record |
| UpdateOne.UpdateDisconnected | src/updateOne.js:10-38 | a disconnected store is reported as Internal with `name: message` |
| UpdateOne.UpdateNotFound | src/updateOne.js:10-28 | with no match, the not-found error on the resolved filter passes through unchanged |
| UpdateOne.UpdateInvalid | src/updateOne.js:16-35 | a candidate missing a required path is a Validation error with Mongoose's message, and nothing is written |
| UpdateOne.UpdateSucceeds | src/updateOne.js:19-24 | a success found a record, validated the candidate, and is the store's write by `params.id`; the result has that `_id`, the candidate's defined fields, and is stored |
| UpdateOne.UpdateConflict | src/updateOne.js:19-31 | a candidate that collides with another record on a unique path is refused by the write and reported as Conflict with the duplicate-key message `E11000 duplicate key error`; nothing is written |
| UpdateOne.UpdateOkWhen | src/updateOne.js:9-24 | an update succeeds exactly when the store is connected, a record matches, the candidate validates and the write by `params.id` goes through |
| UpdateOne.UpdateKeepsValid | src/updateOne.js:19 | whatever the outcome, the collection stays valid |
| UpdateOne.UpdateOne | src/updateOne.js:3-40 | the response is the settled outcome's, and the records change only as that outcome says; validity and connection are kept |
| PatchOne.Original | src/patchOne.js:9 | the record the precheck found, the first match of the resolved filter; used by `PatchOne.PatchKeepsUnnamed` and `PatchOne.PatchSucceeds` |
| PatchOne.PatchAttempt | src/patchOne.js:4-23 | filter, not-found precheck, three-way merge, validation and write; its cases are stated by the `PatchOne` lemmas below |
| PatchOne.PatchResult | src/patchOne.js:4-23 | the attempt as a response plus the records then held; stated by `PatchOne.PatchFailureWritesNothing` through `PatchOne.PatchKeepsValid` |
| PatchOne.PatchData | src/patchOne.js:14 | merge precedence: original < body < `_id` < params |
| PatchOne.PatchKeepsUnnamed | src/patchOne.js:14 | a field neither the body nor params name keeps its original value in the merge |
| PatchOne.PatchNullRequired | src/patchOne.js:14-16 | a body that sets a required path to null makes that path missing, unless params supply it |
| PatchOne.PatchFailureWritesNothing | src/patchOne.js:9-18 | a failed patch leaves the records as they were; a success is status 200 with a record |
| PatchOne.PatchDisconnected | src/patchOne.js:9 | a disconnected store's fault reaches the caller unwrapped |
| PatchOne.PatchNotFound | src/patchOne.js:9-12 | with no match it rejects with `NotFoundError` on the filter, whose keys are `_id` first and then the other params in order |
| PatchOne.PatchInvalid | src/patchOne.js:15-16 | an invalid merge is rejected with Mongoose's `ValidationError`, unwrapped, and nothing is written |
| PatchOne.PatchSucceeds | src/patchOne.js:14-23 | a success is the store's write of the merge by `params.id`; the result has that `_id`, the merge's defined fields, and the original value of every field neither body nor params name, and is stored |
| PatchOne.PatchDuplicate | src/patchOne.js:18 | a merge that collides with another record on a unique path reaches the caller as the native duplicate-key fault, unwrapped; nothing is written |
| PatchOne.PatchOkWhen | src/patchOne.js:9-23 | a patch succeeds exactly when the store is connected, a record matches, the merge validates and the write by `params.id` goes through |
| PatchOne.PatchKeepsValid | src/patchOne.js:18 | whatever the outcome, the collection stays valid |
| PatchOne.PatchOne | src/patchOne.js:3-24 | the response is the settled outcome's, and the records change only as that outcome says; validity and connection are kept |
| DeleteOne.GoneAfterRemoval | src/deleteOne.js:14 | after the removal a lookup by the removed record's `_id` finds nothing, and the collection stays valid |
| DeleteOne.DeleteOne | src/deleteOne.js:3-20 | disconnected, the native fault; no match, `NotFoundError` and nothing removed; it succeeds exactly when a record matches, and then it removes that first match alone and returns it as it was |
| CreateOne.CreateResult | src/createOne.js:2-7 | the candidate saved, as a response plus the records then held; stated by `CreateOne.CreateFailureWritesNothing` through `CreateOne.CreateKeepsValid` |
| CreateOne.CreateData | src/createOne.js:2 | in the candidate, params win over the body on a shared key, and no other key enters |
| CreateOne.CreateWithoutParams | src/createOne.js:1-2 | absent params contribute nothing |
| CreateOne.CreateWithoutBody | src/createOne.js:1-2 | an absent body contributes nothing: the candidate is the params, entry for entry |
| CreateOne.NewRecord | src/createOne.js:2-3 | the new record is stored properly |
| CreateOne.NewRecordFields | src/createOne.js:2-3 | the new record's fields come from params over the body, undefined values dropped, and `createdAt` is now |
| CreateOne.CreateNothingInvalid | src/createOne.js:1-3 | with neither params nor body, every required path is missing |
| CreateOne.CreateFailureWritesNothing | src/createOne.js:3-7 | a failed create inserts nothing; a success is status 201 with the new record |
| CreateOne.CreateInvalid | src/createOne.js:3 | a record lacking a required path is rejected with Mongoose's `ValidationError` |
| CreateOne.CreateDisconnected | src/createOne.js:3 | a valid record cannot be saved while disconnected |
| CreateOne.CreateDuplicate | src/createOne.js:3 | a record that collides with a stored one is the duplicate-key fault |
| CreateOne.CreateSucceeds | src/createOne.js:3-7 | it succeeds exactly when the record is valid, connected and clash-free; then it is appended, and a lookup by its `_id` finds it |
| CreateOne.CreateKeepsValid | src/createOne.js:3 | whatever the outcome, the collection stays valid |
| CreateOne.CreateOne | src/createOne.js:1-8 | the response is the settled outcome's, and the records change only as that outcome says; validity and connection are kept |
| DeleteMany.CopyOf | src/deleteMany.js:2 | the filter is a copy equal to params |
| DeleteMany.DeletedCount | src/deleteMany.js:4-9 | the deleted count is the number of matches, and what remains is the collection minus the matches |
| DeleteMany.NoMatchDeletesNothing | src/deleteMany.js:1-10 | params nothing matches delete nothing and count zero, without a not-found error |
| DeleteMany.EmptyParamsDeleteAll | src/deleteMany.js:2-4 | empty params delete every record, and the count is the collection's size |
| DeleteMany.DeleteMany | src/deleteMany.js:1-10 | disconnected, the native fault; otherwise exactly the non-matching records remain and the answer is 200 with `acknowledged: true` and `deletedCount` the number of matches |
| List.ObjectRef.constructor | src/list.js:2-8 | the caller's `query.filter` as an object reference, so that `Object.assign(filter, params)` is seen by the caller; the constructor holds the given entries |
| List.ListPage | src/list.js:18-29 | the two reads: the sorted page and the count of all matches; stated by `List.ListPageContents`, `List.CountIgnoresPaging` and `List.ListNoMatches` |
| List.CountOption | src/list.js:4-16 | a falsy option takes the default, a non-zero number stays, and a non-empty string is parsed |
| List.TextAsNumber | src/list.js:10-16 | a count passed as its decimal string means the same as the number |
| List.LimitZero | src/list.js:5-16 | `limit: 0` becomes 10, but `limit: "0"` parses to 0, which the store reads as no limit |
| List.SortOf | src/list.js:6 | the default sort is `createdAt` descending; a given sort is used as it is |
| List.ListPageContents | src/list.js:18-29 | the page holds stored records that match, at most `limit` of them, and the count is that of every match |
| List.CountIgnoresPaging | src/list.js:18-21 | the count does not depend on skip or limit |
| List.DefaultNewestFirst | src/list.js:6-19 | without a sort option, items run from newest to oldest |
| List.ListNoMatches | src/list.js:23-29 | a filter nothing matches lists nothing with count 0 |
| List.SecondAndThird | src/list.js:19 | skip 1 and limit 2 over five matches, oldest first, give the second and the third |
| List.List | src/list.js:1-30 | the caller's filter object receives the params in place, whatever the outcome; disconnected, the native fault; otherwise status 200 with the sorted page and the full count over the merged filter |

## Left out

- Schema validation is only the required-paths check. Mongoose also casts
  types, strips fields outside a strict schema, and produces `CastError`;
  the model does none of these.
- `select`/projection and `populate` are not modelled.
- `toObject()` normalisation, and the `__v` and `updatedAt` fields, are
  not modelled.
- Store operators such as `$regex` are left out: filters are equality
  only.
- `Promise.all` in `list` is modelled as two sequential reads of one state.
- Races between the `findOne` precheck and the later write are left out:
  there is no interleaving.
- The store's record order is the insertion order. The only sort options
  are store order and `createdAt` ascending or descending.
- A `Date` value prints in a not-found message as its quoted millisecond
  count, not as an ISO string.
- The duplicate-key message is a fixed string. MongoDB's names the index
  and the key.
- JavaScript's ordering of integer-like keys ahead of other keys is not
  modelled: keys keep insertion order.
- Absent or `null` `params` and `body` are passed as the empty object.
  Spreading or copying them gives the same result.
- src/index.js only re-exports the operations and is not part of this
  model.
- `updateOne` builds its not-found error with the `NotFoundError` of the
  `standard-api-errors` package. That error is modelled with the same
  record as the facade's own.
- The write operations return a computed outcome, and their methods
  commit it to the collection in one step. The intermediate store states
  inside one call are not observable.
- `List.List`, `List.CountOption`, `Json.ParseInt`: `skip` and `limit`
  strings must be decimal digit strings (or empty), and numbers must be
  non-negative. `parseInt` also accepts leading whitespace, a sign, a
  `0x` prefix and trailing non-digits (`parseInt("2px")` is 2), and gives
  NaN only for text without a leading numeral; none of this is modelled,
  and neither are negative counts, which have store-specific meanings.
- `Store.Stamp`: sets `createdAt` to the clock reading even when the
  candidate supplies one. Mongoose keeps a supplied creation date.
- `Store.Page`: a limit of 0 means no limit, as in MongoDB. Negative
  limits are not modelled.
- `Filters.FieldMatches`: an `undefined` criterion matches every record,
  as Mongoose documents for `findOne({ _id: undefined })`. So params
  without `id` select by their other keys alone
  (`Filters.ResolveWithoutId`).
- `Store.UpdateById`: a write by an `undefined` or `null` id finds no
  record, whatever the filter precheck found. The resulting `null` makes
  `toObject()` throw (`Store.NullResult`).
- `Objects.Value`, `Json.ParseInt`: JavaScript numbers are modelled as
  unbounded integers. So non-integral filter values cannot be written,
  `parseInt` does not lose precision above 2^53, and `JSON.stringify`
  does not switch to exponent form for large numbers.
