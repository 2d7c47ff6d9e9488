# Event Management API — a verified model

This project models the core of a small event-management HTTP service. The
service keeps one record per event in a key-value table keyed by `eventId`. It
exposes five handlers: list (optionally filtered by status), create, get,
partial update and delete.

The model has four modules:

- `Events` (`events.dfy`) holds the record in its two shapes. The canonical
  shape is the JSON request/response body. The storage shape is the table item,
  in which five fields are renamed (`description`, `date`, `location`,
  `capacity` and `status` become `event_…`) to keep clear of the store's
  reserved words. The module also holds the mapping between the two shapes and
  `model_dump(exclude_unset=True)` of the update payload. An update field is
  `Unset` (left out of the body) or `Given(v)`, and `v` may be an explicit
  null. Explicit nulls are dumped and therefore written.
- `Validation` (`validation.dfy`) holds the field constraints of the `Event`
  and `EventUpdate` request models: the id, date and status patterns, the
  length bounds and `capacity > 0`. The request-model check produces the list
  of failing fields, and a request is accepted exactly when that list is empty.
- `PartialUpdate` (`partial_update.dfy`) has three parts:
  - the loop that builds the `SET` expression and its name and value
    placeholder maps from the dumped fields;
  - the store's application of that update to an item;
  - the record read back afterwards, which is the old record merged with the
    update.
- `Handlers` (`handlers.dfy`) holds the class `EventService`. Its `table`
  field is the key-value store (`eventId` to item), and it has one method per
  handler. The handlers report a client error as an `Outcome`:
  - `NotFound` is 404;
  - `BadRequest` is 400;
  - `Unprocessable(fields)` is the framework's 422 for a body that fails its
    request model;
  - `StoreRefused` is the 500 the handler answers when the store's client
    refuses to send a request. The client refuses any number with more than 38
    significant decimal digits, so a capacity of `10^38` or more passes the
    `gt=0` check but is never written.

Create and update validate the body before the handler's code runs. An update
is therefore checked in this order: an invalid body gives 422, an absent id
gives 404, and an empty body gives 400. An empty body is never invalid, so
updating an absent id with an empty body gives 404. A body that breaks the
`EventUpdate` constraints is rejected with 422 before the handler's own checks
run, even for an id that does not exist.

Create writes without any existence check, so it silently replaces a record
that has the same id. An update that sends `null` for a field writes the
store's NULL value to that attribute, and the record then reads back with that
field `None`.

## Model

| member | source | states |
|---|---|---|
| Events.AllFieldsInOrder | backend/main.py:28-46 | the eight fields in the request models' declaration order; the update model has the same fields without `eventId` |
| Events.StorageNameFollowsMapping | backend/main.py:186-195 | a field's storage attribute is `field_mapping.get(field, field)`; it equals the canonical name exactly for `eventId`, `title` and `organizer`, and is `event_` + the canonical name otherwise |
| Events.StorageNameInjective | backend/main.py:99-108 | distinct fields are stored under distinct attributes, so the storage mapping is invertible |
| Events.ViewOf | backend/main.py:112-121 | reference definition: the body create returns holds every field of the input event, each present; `RoundTrip` and `CreateThenGet` give it meaning |
| Events.ToItem | backend/main.py:99-108 | the item create writes has exactly the eight storage attributes, each holding its field's value |
| Events.ToView | backend/main.py:142-151 | each field of the record a read handler returns is the `.get` of that field's storage attribute, `None` when missing |
| Events.RoundTrip | backend/main.py:99-151 | storing an event and reading it back gives the body create returned, and that body converts back to the same event |
| Events.ToItemStorableIff | backend/main.py:99-110 | the item create writes can be sent to the store exactly when the capacity has at most 38 digits, the only number among the fields |
| Events.ReadBackDeterminesItem | backend/main.py:142-151 | an item that reads back as an event holds exactly that event's values under the eight storage attributes |
| Events.Setting | backend/main.py:39-46 | the update payload never carries the key `eventId`; that the key attribute is therefore never written is stated by `PartialUpdate.WritesOnlySupplied` |
| Events.DumpFrom | backend/main.py:178 | of the given fields, it lists exactly those that were set, each with its sent value (nulls included), in declaration order |
| Events.ModelDump | backend/main.py:178 | `model_dump(exclude_unset=True)`: exactly the set fields with their values, each once, in declaration order; empty iff no field was set |
| Validation.Failing | backend/main.py:28-46 | a field is reported iff one of its given values is rejected; no more failures than values |
| Validation.Violations | backend/main.py:28-36 | a create payload's field is reported iff its value breaks that field's constraint |
| Validation.UpdateViolations | backend/main.py:39-46 | an update field is reported iff it was set to a non-null value that breaks the field's constraint |
| Validation.CreateAcceptsIff | backend/main.py:29-36 | create accepts a payload iff the id matches `[A-Za-z0-9_-]+`, the title has 1..200 characters, the description at most 1000, the date matches `DDDD-DD-DD`, the location has 1..200, the capacity is positive, the organizer has 1..100 and the status is active, cancelled or completed |
| Validation.UpdateAcceptsIff | backend/main.py:39-46 | an update is accepted iff every field it sets is null or meets the same constraint as in create |
| Validation.EmptyUpdateIsValid | backend/main.py:178-184 | an update that sets no field passes validation, so it reaches the existence check and then the empty-payload check |
| PartialUpdate.JoinSnoc | backend/main.py:196-198 | appending a clause to a non-empty expression adds `, ` and the clause |
| PartialUpdate.Clauses | backend/main.py:194-198 | reference definition, which `BuildUpdate` is proved against: one clause `#a = :a` per supplied field, `a` being its storage attribute, in the fields' order |
| PartialUpdate.DumpIsDistinct | backend/main.py:178 | the dumped payload names each field at most once |
| PartialUpdate.PlaceholderKeysMembers | backend/main.py:199-200 | every placeholder key is the prefix followed by a supplied field's storage attribute |
| PartialUpdate.ExpressionSnoc | backend/main.py:194-198 | one loop step extends the expression by a separator (none before the first clause) and the next field's clause |
| PartialUpdate.PlaceholdersSnoc | backend/main.py:199-200 | one loop step keeps both placeholder maps in step with the fields processed so far |
| PartialUpdate.BuildUpdate | backend/main.py:173-200 | the expression is `SET ` followed by the fields' clauses joined by `, `; the name map sends exactly `#a` to `a` and the value map sends exactly `:a` to the supplied value, for each supplied field; `eventId` has no placeholder |
| PartialUpdate.KeyHasNoPlaceholder | backend/main.py:199-203 | no placeholder names the key attribute `eventId` |
| PartialUpdate.ApplySetAt | backend/main.py:202-207 | after the `SET`, an attribute designated by the name map holds its `:` value and every other attribute keeps its old value |
| PartialUpdate.Merge | backend/main.py:209-221 | reference definition, which `UpdatedView` proves the read-back equal to: a field that the update supplies takes the supplied value, and every other field keeps its current value |
| PartialUpdate.NamedAreUpdated | backend/main.py:194-200 | every attribute the name map designates is the storage attribute of a supplied field |
| PartialUpdate.UpdatedAreNamed | backend/main.py:194-200 | the storage attribute of every supplied field is designated by the name map |
| PartialUpdate.SuppliedValuesPlaced | backend/main.py:194-200 | every supplied value, nulls included, sits under the `:` placeholder of its field's storage attribute |
| PartialUpdate.NamedAttributes | backend/main.py:194-200 | the name map designates exactly the storage attributes of the supplied fields, and each has its supplied value under its `:` placeholder |
| PartialUpdate.UpdatedField | backend/main.py:202-221 | each field of the record read back after the update is the supplied value if the field was supplied, else the old value |
| PartialUpdate.UpdatedView | backend/main.py:202-221 | the record read back after the update is the old record merged with the update |
| PartialUpdate.WritesOnlySupplied | backend/main.py:202-207 | the update adds or overwrites exactly the supplied fields' attributes; every other attribute, including the key, keeps its value |
| PartialUpdate.BuiltUpdateEffect | backend/main.py:202-221 | applying the built update changes the item as described above and leaves its `eventId` attribute unchanged |
| PartialUpdate.SuppliedStorableIff | backend/main.py:39-46 | an update's values can all be sent exactly when it does not set the capacity to a number of 39 or more digits |
| PartialUpdate.ValuesStorableIff | backend/main.py:200-207 | the value map sent with the update can be serialized exactly when every supplied value can |
| Handlers.KeyedAfterReplace | backend/main.py:202-203 | replacing a record by one with the same `eventId` attribute keeps every item stored under its own id |
| Handlers.EventService.constructor | backend/main.py:22-24 | the service starts over an injected table whose items are stored under their own ids |
| Handlers.ListingComplete | backend/main.py:63-84 | a listing that reads back every selected key holds every selected event; with no filter or an empty one, every stored event |
| Handlers.ListingSound | backend/main.py:63-84 | every listed event is the read-back of a stored item the filter selects |
| Handlers.ListingDistinct | backend/main.py:70-84 | events read back from distinct keys are distinct, since each carries its own key |
| Handlers.ListingFiltered | backend/main.py:63-66 | under a non-empty filter, every listed event has exactly that status |
| Handlers.EventService.Scan | backend/main.py:62-70 | every selected item exactly once, each from a distinct key, and nothing else |
| Handlers.EventService.ListEvents | backend/main.py:59-86 | every stored event the filter selects is listed, read back, exactly once, and nothing else; with no filter or an empty one, every event; with a non-empty filter, only events with that status |
| Handlers.EventService.GetEvent | backend/main.py:129-151 | an absent id gives NotFound; a present one gives the stored record read back, carrying that id |
| Handlers.EventService.CreateEvent | backend/main.py:94-126 | an invalid payload gives 422 with its failing fields and no write; a valid one whose capacity has 39 or more digits is refused by the store's client (500) with no write; any other valid one is written under its id, replacing any previous record, and its canonical record is returned with every field as sent |
| Handlers.EventService.UpdateEvent | backend/main.py:161-229 | 422 with no write for an invalid body, then NotFound with no write for an absent id, then BadRequest with no write for an empty body, then a 500 with no write when a supplied value is too long for the store's numbers; otherwise only that record changes, in exactly the supplied attributes, and the record read back is returned |
| Handlers.EventService.DeleteEvent | backend/main.py:232-246 | an absent id gives NotFound with no write; otherwise that record alone is removed and the confirmation message is returned |
| Handlers.CreateThenGet | backend/main.py:94-151 | creating a valid event whose capacity the store can hold and then getting its id returns what create returned: every field as sent, converting back to the same event |
| Handlers.UpdateThenGet | backend/main.py:202-221 | an accepted update whose values the store can hold returns the record that a following get reads, which is the old record merged with the update |
| Handlers.DeleteThenGet | backend/main.py:232-246 | after a delete, getting or deleting the same id gives NotFound |
| Handlers.ExampleIsValid | backend/main.py:28-36 | the example event `evt-1` passes the create constraints |
| Handlers.CapacityChange | backend/main.py:44 | a positive new capacity is a valid, non-empty update, which the store can hold exactly when it has at most 38 digits, and merging it changes the capacity and nothing else |

## Left out

- The application object, CORS middleware, and the root and health endpoints (`backend/main.py:10-19`, `49-56`) are framework configuration with no logic.
- The store client and the table-name environment lookup (`backend/main.py:22-24`) are replaced by the `table` field, which the constructor receives.
- Scan pagination is not modelled. The source reads only the first page of the scan. `Scan` returns the whole selection, in an order it chooses, so no order is promised.
- Store failures that depend on the store's state or the network (throttling, connectivity, permissions) are left out, together with their conversion to 500 responses (`backend/main.py:87-91`, `122-126`, `154-158`, `225-229`). The model's store fails only where its client deterministically refuses a request: a number of more than 38 digits, which gives `StoreRefused`. The text of error details is left out too.
- Handlers.EventService.CreateEvent: the store's limits of 2048 bytes for a key and 400 KB for an item are not modelled. An id longer than 2048 characters passes the id pattern, which has no length bound, and the model writes it; the store would refuse it and the handler would answer 500. The same holds for such an id in get, update and delete.
- The read-after-write race between the update and its re-read (`backend/main.py:202-211`) is not modelled. Neither is concurrent request handling. The model runs one handler at a time.
- Handlers.CreateThenGet, Handlers.UpdateThenGet, Handlers.DeleteThenGet: the `table` map models strongly consistent reads, where every get, existence check and scan sees the latest write. The source sets no `ConsistentRead` on `get_item` or `scan` (`backend/main.py:64-68`, `133`, `166`, `210`, `237`), so the store serves eventually consistent reads even when requests arrive one at a time. In the source, a get right after a create can give 404, an update's or a delete's existence check can miss a record just created, and a get right after a delete can still return the record. These three methods hold for the model's store, not for every run of the source.
- Stored values are limited to the types this service writes: strings, integers and NULL. Another writer could store attributes of other types (booleans, lists, maps, binary values, sets), and the `.get` lookups at `backend/main.py:76-83` and `143-150` would return them unchanged. `Value` cannot represent them.
- `PartialUpdate.ApplySet`: the store's parsing of the update expression is not modelled. The `SET` is applied from the name and value maps, on the basis that each clause pairs `#a` with `:a`. `BuildUpdate` proves that its expression consists of exactly such clauses.
- `Validation.Satisfies`: the patterns are ASCII character predicates. The regular-expression engine of the source's validation library also accepts non-ASCII digits for `\d`, and that is not modelled.
- JSON decoding and type coercion of request bodies and query parameters are not modelled. Payloads arrive as typed `Event` and `EventUpdate` values.
- The 422 detail that the framework generates is reduced to the list of failing fields.
