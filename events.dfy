/** Event records in the two shapes the service handles: the canonical shape of
    the HTTP API (the `Event` and `EventUpdate` request models) and the storage
    shape kept in the key-value table, together with the mapping between them. */
module Events {

  datatype Option<+T> = None | Some(value: T)

  /** A scalar attribute value as the service writes it: a string or an integer. */
  datatype Value = Str(s: string) | Num(n: int)

  /** A stored item: attribute name to value. `None` is the store's NULL value
      (Python's `None`), which an update writes when a client sends an explicit null. */
  type Item = map<string, Option<Value>>

  /** The eight fields of an event, in the order the request models declare them. */
  datatype Field = EventId | Title | Description | Date | Location | Capacity | Organizer | Status

  /** The fields an update may carry: all but the key. */
  type UpdateField = f: Field | f != EventId witness Title

  const AllFields: seq<Field> := [EventId, Title, Description, Date, Location, Capacity, Organizer, Status]
  const UpdateFields: seq<Field> := [Title, Description, Date, Location, Capacity, Organizer, Status]

  /** Position of a field in declaration order. */
  function Index(f: Field): nat
  {
    match f
    case EventId => 0
    case Title => 1
    case Description => 2
    case Date => 3
    case Location => 4
    case Capacity => 5
    case Organizer => 6
    case Status => 7
  }

  lemma AllFieldsInOrder(f: Field)
    ensures 0 <= Index(f) < |AllFields| && AllFields[Index(f)] == f
    ensures f != EventId ==> 0 <= Index(f) - 1 < |UpdateFields| && UpdateFields[Index(f) - 1] == f
  {
  }

  /** The name of a field in the canonical (JSON) shape. */
  function CanonicalName(f: Field): string
  {
    match f
    case EventId => "eventId"
    case Title => "title"
    case Description => "description"
    case Date => "date"
    case Location => "location"
    case Capacity => "capacity"
    case Organizer => "organizer"
    case Status => "status"
  }

  /** The renames that keep attribute names clear of the store's reserved words. */
  const FieldMapping: map<string, string> :=
    map["description" := "event_description",
        "date" := "event_date",
        "location" := "event_location",
        "capacity" := "event_capacity",
        "status" := "event_status"]

  /** The attribute a field is stored under: its rename when it has one, else its own name. */
  function StorageName(f: Field): string
  {
    match f
    case EventId => "eventId"
    case Title => "title"
    case Description => "event_description"
    case Date => "event_date"
    case Location => "event_location"
    case Capacity => "event_capacity"
    case Organizer => "organizer"
    case Status => "event_status"
  }

  /** The storage name is what `field_mapping.get(field, field)` gives: the rename
      for the five mapped fields, the field's own name for the other three. */
  lemma StorageNameFollowsMapping(f: Field)
    ensures StorageName(f) == (if CanonicalName(f) in FieldMapping then FieldMapping[CanonicalName(f)] else CanonicalName(f))
    ensures StorageName(f) == CanonicalName(f) <==> f == EventId || f == Title || f == Organizer
    ensures StorageName(f) != CanonicalName(f) ==> StorageName(f) == "event_" + CanonicalName(f)
  {
  }

  /** Distinct fields are stored under distinct attributes, so the mapping can be inverted. */
  lemma StorageNameInjective(f: Field, g: Field)
    ensures StorageName(f) == StorageName(g) ==> f == g
  {
  }

  const StorageNames: set<string> :=
    {"eventId", "title", "event_description", "event_date", "event_location",
     "event_capacity", "organizer", "event_status"}

  /** A validated create payload. */
  datatype Event = Event(eventId: string, title: string, description: string, date: string,
                         location: string, capacity: int, organizer: string, status: string)

  /** The value of one field of an event. */
  function FieldValue(e: Event, f: Field): Value
  {
    match f
    case EventId => Str(e.eventId)
    case Title => Str(e.title)
    case Description => Str(e.description)
    case Date => Str(e.date)
    case Location => Str(e.location)
    case Capacity => Num(e.capacity)
    case Organizer => Str(e.organizer)
    case Status => Str(e.status)
  }

  /** The record the read handlers return: every field looked up with `dict.get`,
      so each one may be missing (`None`). */
  datatype EventView = EventView(eventId: Option<Value>, title: Option<Value>,
                                 description: Option<Value>, date: Option<Value>,
                                 location: Option<Value>, capacity: Option<Value>,
                                 organizer: Option<Value>, status: Option<Value>)

  function ViewField(v: EventView, f: Field): Option<Value>
  {
    match f
    case EventId => v.eventId
    case Title => v.title
    case Description => v.description
    case Date => v.date
    case Location => v.location
    case Capacity => v.capacity
    case Organizer => v.organizer
    case Status => v.status
  }

  /** Two records that agree on every field are equal. */
  lemma ViewExtensionality(v: EventView, w: EventView)
    requires forall f :: ViewField(v, f) == ViewField(w, f)
    ensures v == w
  {
    assert ViewField(v, EventId) == ViewField(w, EventId);
    assert ViewField(v, Title) == ViewField(w, Title);
    assert ViewField(v, Description) == ViewField(w, Description);
    assert ViewField(v, Date) == ViewField(w, Date);
    assert ViewField(v, Location) == ViewField(w, Location);
    assert ViewField(v, Capacity) == ViewField(w, Capacity);
    assert ViewField(v, Organizer) == ViewField(w, Organizer);
    assert ViewField(v, Status) == ViewField(w, Status);
  }

  /** The canonical record of an event, every field present. */
  function ViewOf(e: Event): (v: EventView)
    ensures forall f :: ViewField(v, f) == Some(FieldValue(e, f))
  {
    EventView(Some(Str(e.eventId)), Some(Str(e.title)), Some(Str(e.description)),
              Some(Str(e.date)), Some(Str(e.location)), Some(Num(e.capacity)),
              Some(Str(e.organizer)), Some(Str(e.status)))
  }

  /** `item.get(attribute)`: the stored value, or `None` when the attribute is missing. */
  function Lookup(item: Item, attribute: string): Option<Value>
  {
    if attribute in item then item[attribute] else None
  }

  /** The storage item create writes: every field under its storage name. */
  function ToItem(e: Event): (item: Item)
    ensures item.Keys == StorageNames
    ensures forall f :: StorageName(f) in item && item[StorageName(f)] == Some(FieldValue(e, f))
  {
    map["eventId" := Some(Str(e.eventId)),
        "title" := Some(Str(e.title)),
        "event_description" := Some(Str(e.description)),
        "event_date" := Some(Str(e.date)),
        "event_location" := Some(Str(e.location)),
        "event_capacity" := Some(Num(e.capacity)),
        "organizer" := Some(Str(e.organizer)),
        "event_status" := Some(Str(e.status))]
  }

  /** The store's client writes a number only when it fits in 38 significant
      decimal digits; it refuses an integer of 39 or more digits before sending
      anything. */
  const NumberLimit: int := 100000000000000000000000000000000000000

  /** A value the store's client can write. */
  predicate Storable(v: Option<Value>)
  {
    v.Some? && v.value.Num? ==> -NumberLimit < v.value.n < NumberLimit
  }

  predicate ItemStorable(item: Item)
  {
    forall a :: a in item ==> Storable(item[a])
  }

  /** Of an event's fields only the capacity is a number, so the item create
      writes can be sent exactly when the capacity has at most 38 digits. */
  lemma ToItemStorableIff(e: Event)
    ensures ItemStorable(ToItem(e)) <==> -NumberLimit < e.capacity < NumberLimit
  {
    if ItemStorable(ToItem(e)) {
      assert Storable(ToItem(e)[StorageName(Capacity)]);
    }
  }

  /** The record the read handlers build from a stored item. */
  function ToView(item: Item): (v: EventView)
    ensures forall f :: ViewField(v, f) == Lookup(item, StorageName(f))
  {
    EventView(Lookup(item, "eventId"),
              Lookup(item, "title"),
              Lookup(item, "event_description"),
              Lookup(item, "event_date"),
              Lookup(item, "event_location"),
              Lookup(item, "event_capacity"),
              Lookup(item, "organizer"),
              Lookup(item, "event_status"))
  }

  function AsString(v: Option<Value>): Option<string>
  {
    if v.Some? && v.value.Str? then Some(v.value.s) else None
  }

  function AsInt(v: Option<Value>): Option<int>
  {
    if v.Some? && v.value.Num? then Some(v.value.n) else None
  }

  /** Reads a record back as an event when every field is present with its type. */
  function ToEvent(v: EventView): Option<Event>
  {
    var id, title, description, date := AsString(v.eventId), AsString(v.title), AsString(v.description), AsString(v.date);
    var location, capacity, organizer, status := AsString(v.location), AsInt(v.capacity), AsString(v.organizer), AsString(v.status);
    if id.Some? && title.Some? && description.Some? && date.Some? && location.Some?
       && capacity.Some? && organizer.Some? && status.Some?
    then Some(Event(id.value, title.value, description.value, date.value,
                    location.value, capacity.value, organizer.value, status.value))
    else None
  }

  /** Storing an event and reading the item back yields every canonical field unchanged. */
  lemma RoundTrip(e: Event)
    ensures ToView(ToItem(e)) == ViewOf(e)
    ensures ToEvent(ToView(ToItem(e))) == Some(e)
  {
    var item := ToItem(e);
    forall f ensures ViewField(ToView(item), f) == ViewField(ViewOf(e), f) {
    }
    ViewExtensionality(ToView(item), ViewOf(e));
  }

  /** Conversely, an item that reads back as an event holds exactly that event's
      values under the eight storage names. */
  lemma ReadBackDeterminesItem(item: Item, e: Event)
    requires ToEvent(ToView(item)) == Some(e)
    ensures forall f :: Lookup(item, StorageName(f)) == Lookup(ToItem(e), StorageName(f))
  {
    var v := ToView(item);
    forall f ensures Lookup(item, StorageName(f)) == Lookup(ToItem(e), StorageName(f)) {
      assert ViewField(v, f) == Lookup(item, StorageName(f));
      match f
      case Capacity => assert AsInt(v.capacity) == Some(e.capacity);
      case _ =>
    }
  }

  /** An update field left out of the request body, or sent (possibly as null). */
  datatype Supplied<+T> = Unset | Given(value: Option<T>)

  /** A validated update payload: every field optional, unset distinct from null. */
  datatype EventUpdate = EventUpdate(title: Supplied<string>, description: Supplied<string>,
                                     date: Supplied<string>, location: Supplied<string>,
                                     capacity: Supplied<int>, organizer: Supplied<string>,
                                     status: Supplied<string>)

  function StringSetting(s: Supplied<string>): Supplied<Value>
  {
    match s
    case Unset => Unset
    case Given(None) => Given(None)
    case Given(Some(x)) => Given(Some(Str(x)))
  }

  function IntSetting(s: Supplied<int>): Supplied<Value>
  {
    match s
    case Unset => Unset
    case Given(None) => Given(None)
    case Given(Some(x)) => Given(Some(Num(x)))
  }

  /** What an update payload says about one field; the key is never part of it. */
  function Setting(u: EventUpdate, f: Field): (s: Supplied<Value>)
    ensures f == EventId ==> s == Unset
  {
    match f
    case EventId => Unset
    case Title => StringSetting(u.title)
    case Description => StringSetting(u.description)
    case Date => StringSetting(u.date)
    case Location => StringSetting(u.location)
    case Capacity => IntSetting(u.capacity)
    case Organizer => StringSetting(u.organizer)
    case Status => StringSetting(u.status)
  }

  /** The explicitly set fields among `fields`, in their order, with their values. */
  function DumpFrom(u: EventUpdate, fields: seq<Field>): (r: seq<(UpdateField, Option<Value>)>)
    requires forall i, j :: 0 <= i < j < |fields| ==> Index(fields[i]) < Index(fields[j])
    ensures forall i :: 0 <= i < |r| ==> r[i].0 in fields && Setting(u, r[i].0) == Given(r[i].1)
    ensures forall f :: f in fields && Setting(u, f).Given? ==> (f, Setting(u, f).value) in r
    ensures forall i, j :: 0 <= i < j < |r| ==> Index(r[i].0) < Index(r[j].0)
  {
    if fields == [] then []
    else
      var rest := DumpFrom(u, fields[1..]);
      match Setting(u, fields[0])
      case Unset => rest
      case Given(v) => [(fields[0], v)] + rest
  }

  /** `model_dump(exclude_unset=True)`: the set fields in declaration order, explicit
      nulls included. */
  function ModelDump(u: EventUpdate): (r: seq<(UpdateField, Option<Value>)>)
    ensures forall i :: 0 <= i < |r| ==> Setting(u, r[i].0) == Given(r[i].1)
    ensures forall f :: Setting(u, f).Given? ==> (f, Setting(u, f).value) in r
    ensures forall i, j :: 0 <= i < j < |r| ==> Index(r[i].0) < Index(r[j].0)
    ensures r == [] <==> forall f :: Setting(u, f) == Unset
  {
    var r := DumpFrom(u, UpdateFields);
    assert forall f :: Setting(u, f).Given? ==> f in UpdateFields by {
      forall f | Setting(u, f).Given? ensures f in UpdateFields {
        AllFieldsInOrder(f);
      }
    }
    assert r != [] ==> Setting(u, r[0].0) != Unset;
    r
  }
}
