/** The five event handlers over the key-value table, which is held as a map
    from `eventId` to the stored item. */
module Handlers {
  import opened Events
  import opened Validation
  import opened PartialUpdate

  /** What a handler produces: its result, the client error it raises (404,
      400, or the request-model validation error 422 with the failing fields),
      or the 500 it answers when the store's client refuses the request. */
  datatype Outcome<+T> = Ok(value: T) | NotFound | BadRequest | Unprocessable(fields: seq<Field>) | StoreRefused

  /** Every stored item carries its own key under the `eventId` attribute. */
  ghost predicate WellKeyed(table: map<string, Item>)
  {
    forall k :: k in table ==> Lookup(table[k], "eventId") == Some(Str(k))
  }

  /** Whether a scan returns an item: with a non-empty status filter, only items
      whose `event_status` attribute equals it; with none, or an empty one, all. */
  predicate Selected(statusFilter: Option<string>, item: Item)
  {
    match statusFilter
    case None => true
    case Some(s) => s == "" || Lookup(item, "event_status") == Some(Str(s))
  }

  function DeletedMessage(eventId: string): string
  {
    "Event " + eventId + " deleted successfully"
  }

  /** Replacing a record by one that keeps its `eventId` attribute keeps the
      table keyed. */
  lemma KeyedAfterReplace(before: map<string, Item>, eventId: string, updated: Item)
    requires WellKeyed(before) && eventId in before
    requires Lookup(updated, "eventId") == Lookup(before[eventId], "eventId")
    ensures WellKeyed(before[eventId := updated])
  {
  }

  /** A listing read back from the table: event `i` is the record stored under
      `keys[i]`, an item the filter selects. */
  ghost predicate ReadBackOf(table: map<string, Item>, statusFilter: Option<string>,
                             keys: seq<string>, events: seq<EventView>)
  {
    && |keys| == |events|
    && forall i :: 0 <= i < |keys| ==>
         keys[i] in table && Selected(statusFilter, table[keys[i]]) && events[i] == ToView(table[keys[i]])
  }

  /** A listing that reads back every selected key holds every selected event. */
  lemma ListingComplete(table: map<string, Item>, statusFilter: Option<string>,
                        keys: seq<string>, events: seq<EventView>)
    requires ReadBackOf(table, statusFilter, keys, events)
    requires forall k :: k in table && Selected(statusFilter, table[k]) ==> k in keys
    ensures forall k :: k in table && Selected(statusFilter, table[k]) ==> ToView(table[k]) in events
    ensures statusFilter == None || statusFilter == Some("") ==>
      forall k :: k in table ==> ToView(table[k]) in events
  {
    forall k | k in table && Selected(statusFilter, table[k]) ensures ToView(table[k]) in events {
      var i :| 0 <= i < |keys| && keys[i] == k;
      assert events[i] == ToView(table[k]);
    }
  }

  /** The records of the stored items the filter selects, read back. */
  ghost function SelectedViews(table: map<string, Item>, statusFilter: Option<string>): set<EventView>
  {
    set k | k in table && Selected(statusFilter, table[k]) :: ToView(table[k])
  }

  /** Every event of a listing is a selected stored event. */
  lemma ListingSound(table: map<string, Item>, statusFilter: Option<string>,
                     keys: seq<string>, events: seq<EventView>)
    requires ReadBackOf(table, statusFilter, keys, events)
    ensures forall i :: 0 <= i < |events| ==> events[i] in SelectedViews(table, statusFilter)
  {
    forall i | 0 <= i < |events| ensures events[i] in SelectedViews(table, statusFilter) {
      var k := keys[i];
      assert k in table && Selected(statusFilter, table[k]) && events[i] == ToView(table[k]);
    }
  }

  /** Records read back from distinct keys of a keyed table are distinct: each
      carries its own key. */
  lemma ListingDistinct(table: map<string, Item>, statusFilter: Option<string>,
                        keys: seq<string>, events: seq<EventView>)
    requires WellKeyed(table) && ReadBackOf(table, statusFilter, keys, events)
    requires forall i, j :: 0 <= i < j < |keys| ==> keys[i] != keys[j]
    ensures forall i, j :: 0 <= i < j < |events| ==> events[i] != events[j]
  {
    forall i | 0 <= i < |events| ensures events[i].eventId == Some(Str(keys[i])) {
      assert ViewField(events[i], EventId) == Lookup(table[keys[i]], StorageName(EventId));
    }
  }

  /** Under a non-empty filter, every listed event has that status. */
  lemma ListingFiltered(table: map<string, Item>, status: string,
                        keys: seq<string>, events: seq<EventView>)
    requires status != "" && ReadBackOf(table, Some(status), keys, events)
    ensures forall i :: 0 <= i < |events| ==> events[i].status == Some(Str(status))
  {
    forall i | 0 <= i < |events| ensures events[i].status == Some(Str(status)) {
      assert ViewField(events[i], Status) == Lookup(table[keys[i]], StorageName(Status));
    }
  }

  class EventService {
    /** The event table: `eventId` to stored item. */
    var table: map<string, Item>

    ghost predicate Valid()
      reads this
    {
      WellKeyed(table)
    }

    /** The service over a table reached through an injected store client. */
    constructor (initial: map<string, Item>)
      requires WellKeyed(initial)
      ensures Valid() && table == initial
    {
      table := initial;
    }

    /** The store's scan: every selected item exactly once, in an order the
        store chooses. */
    method Scan(statusFilter: Option<string>) returns (items: seq<Item>, ghost keys: seq<string>)
      requires Valid()
      ensures forall k :: k in table && Selected(statusFilter, table[k]) ==> table[k] in items && k in keys
      ensures |keys| == |items|
      ensures forall i :: 0 <= i < |items| ==>
        keys[i] in table && Selected(statusFilter, table[keys[i]]) && items[i] == table[keys[i]]
      ensures forall i, j :: 0 <= i < j < |items| ==> items[i] != items[j] && keys[i] != keys[j]
    {
      items := [];
      keys := [];
      var remaining := table.Keys;
      while remaining != {}
        invariant remaining <= table.Keys
        invariant |keys| == |items|
        invariant forall i :: 0 <= i < |keys| ==>
          keys[i] in table && keys[i] !in remaining && Selected(statusFilter, table[keys[i]]) && items[i] == table[keys[i]]
        invariant forall k :: k in table && k !in remaining && Selected(statusFilter, table[k]) ==> k in keys
        invariant forall i, j :: 0 <= i < j < |keys| ==> keys[i] != keys[j]
        decreases remaining
      {
        var k :| k in remaining;
        if Selected(statusFilter, table[k]) {
          items := items + [table[k]];
          keys := keys + [k];
        }
        remaining := remaining - {k};
      }
      forall k | k in table && Selected(statusFilter, table[k]) ensures table[k] in items && k in keys {
        var i :| 0 <= i < |keys| && keys[i] == k;
        assert items[i] == table[k];
      }
      forall i, j | 0 <= i < j < |items| ensures items[i] != items[j] && keys[i] != keys[j] {
        assert Lookup(items[i], "eventId") == Some(Str(keys[i]));
        assert Lookup(items[j], "eventId") == Some(Str(keys[j]));
      }
    }

    /** `GET /events`: exactly the selected stored events, each once, read back
        into the canonical shape. */
    method ListEvents(statusFilter: Option<string>) returns (events: seq<EventView>)
      requires Valid()
      ensures forall k :: k in table && Selected(statusFilter, table[k]) ==> ToView(table[k]) in events
      ensures forall i :: 0 <= i < |events| ==> events[i] in SelectedViews(table, statusFilter)
      ensures forall i, j :: 0 <= i < j < |events| ==> events[i] != events[j]
      ensures statusFilter == None || statusFilter == Some("") ==>
        forall k :: k in table ==> ToView(table[k]) in events
      ensures statusFilter.Some? && statusFilter.value != "" ==>
        forall i :: 0 <= i < |events| ==> events[i].status == Some(Str(statusFilter.value))
    {
      var items, keys := Scan(statusFilter);
      events := [];
      for i := 0 to |items|
        invariant |events| == i
        invariant forall j :: 0 <= j < i ==> events[j] == ToView(items[j])
      {
        events := events + [ToView(items[i])];
      }
      assert ReadBackOf(table, statusFilter, keys, events);
      ListingComplete(table, statusFilter, keys, events);
      ListingSound(table, statusFilter, keys, events);
      ListingDistinct(table, statusFilter, keys, events);
      if statusFilter.Some? && statusFilter.value != "" {
        ListingFiltered(table, statusFilter.value, keys, events);
      }
    }

    /** `GET /events/{id}`. */
    method GetEvent(eventId: string) returns (r: Outcome<EventView>)
      requires Valid()
      ensures eventId !in table ==> r == NotFound
      ensures eventId in table ==> r == Ok(ToView(table[eventId]))
      ensures r.Ok? ==> r.value.eventId == Some(Str(eventId))
    {
      if eventId !in table {
        return NotFound;
      }
      r := Ok(ToView(table[eventId]));
    }

    /** `POST /events`: a payload that passes validation is written under its
        `eventId`, replacing any record already there, and returned in the
        canonical shape; a capacity too long for the store's numbers is refused
        by the store's client and nothing is written. */
    method CreateEvent(e: Event) returns (r: Outcome<EventView>)
      requires Valid()
      modifies this
      ensures Valid()
      ensures Violations(e) != [] ==> r == Unprocessable(Violations(e)) && table == old(table)
      ensures Violations(e) == [] && e.capacity >= NumberLimit ==> r == StoreRefused && table == old(table)
      ensures Violations(e) == [] && e.capacity < NumberLimit ==>
        r == Ok(ViewOf(e)) && table == old(table)[e.eventId := ToItem(e)]
    {
      var violations := Violations(e);
      if violations != [] {
        return Unprocessable(violations);
      }
      var item := ToItem(e);
      assert Capacity !in violations;
      ToItemStorableIff(e);
      if !ItemStorable(item) {
        return StoreRefused;
      }
      assert StorageName(EventId) == "eventId";
      table := table[e.eventId := item];
      r := Ok(ViewOf(e));
    }

    /** `PUT /events/{id}`: the body is validated first, then the key must
        exist, then at least one field must be set; the supplied fields (explicit
        nulls included) are written, unless the store's client refuses one of
        their values, and the stored record is read back. */
    method UpdateEvent(eventId: string, u: EventUpdate) returns (r: Outcome<EventView>)
      requires Valid()
      modifies this
      ensures Valid()
      ensures UpdateViolations(u) != [] ==> r == Unprocessable(UpdateViolations(u)) && table == old(table)
      ensures UpdateViolations(u) == [] && eventId !in old(table) ==> r == NotFound && table == old(table)
      ensures UpdateViolations(u) == [] && eventId in old(table) && ModelDump(u) == [] ==>
        r == BadRequest && table == old(table)
      ensures UpdateViolations(u) == [] && eventId in old(table) && ModelDump(u) != [] && !SuppliedStorable(u) ==>
        r == StoreRefused && table == old(table)
      ensures UpdateViolations(u) == [] && eventId in old(table) && ModelDump(u) != [] && SuppliedStorable(u) ==>
        && eventId in table && table == old(table)[eventId := table[eventId]]
        && UpdatedRecord(old(table)[eventId], table[eventId], u)
        && r == Ok(ToView(table[eventId]))
    {
      var violations := UpdateViolations(u);
      if violations != [] {
        return Unprocessable(violations);
      }
      if eventId !in table {
        return NotFound;
      }
      var fields := ModelDump(u);
      if fields == [] {
        return BadRequest;
      }
      DumpIsDistinct(u);
      var expression, names, values := BuildUpdate(fields);
      ValuesStorableIff(u, names, values);
      if !ItemStorable(values) {
        return StoreRefused;
      }
      var item := table[eventId];
      var updated := ApplySet(item, names, values);
      BuiltUpdateEffect(item, u, names, values);
      KeyedAfterReplace(table, eventId, updated);
      table := table[eventId := updated];
      r := Ok(ToView(updated));
    }

    /** `DELETE /events/{id}`: removes that record and no other. */
    method DeleteEvent(eventId: string) returns (r: Outcome<string>)
      requires Valid()
      modifies this
      ensures Valid()
      ensures eventId !in old(table) ==> r == NotFound && table == old(table)
      ensures eventId in old(table) ==> r == Ok(DeletedMessage(eventId)) && table == old(table) - {eventId}
      // A corollary of the two clauses above, stated for the reader: no other record changes.
      ensures forall k :: k in old(table) && k != eventId ==> k in table && table[k] == old(table)[k]
    {
      if eventId !in table {
        return NotFound;
      }
      table := table - {eventId};
      r := Ok(DeletedMessage(eventId));
    }
  }

  /** Creating a valid event the store can hold and then getting its id returns
      what create returned: every field as sent. */
  method CreateThenGet(service: EventService, e: Event) returns (created: Outcome<EventView>, got: Outcome<EventView>)
    requires service.Valid() && Violations(e) == [] && e.capacity < NumberLimit
    modifies service
    ensures service.Valid()
    ensures service.table == old(service.table)[e.eventId := ToItem(e)]
    ensures created == got == Ok(ViewOf(e))
    ensures got.Ok? && ToEvent(got.value) == Some(e)
  {
    created := service.CreateEvent(e);
    got := service.GetEvent(e.eventId);
    RoundTrip(e);
  }

  /** An accepted update returns the record that a following get reads back:
      the old record merged with the update. */
  method UpdateThenGet(service: EventService, eventId: string, u: EventUpdate)
    returns (updated: Outcome<EventView>, got: Outcome<EventView>)
    requires service.Valid() && eventId in service.table
    requires UpdateViolations(u) == [] && ModelDump(u) != [] && SuppliedStorable(u)
    modifies service
    ensures service.Valid()
    ensures updated == got == Ok(Merge(ToView(old(service.table)[eventId]), u))
  {
    updated := service.UpdateEvent(eventId, u);
    got := service.GetEvent(eventId);
  }

  /** After a delete, getting or deleting the same id finds nothing. */
  method DeleteThenGet(service: EventService, eventId: string) returns (got: Outcome<EventView>, again: Outcome<string>)
    requires service.Valid()
    modifies service
    ensures got == NotFound && again == NotFound
  {
    var deleted := service.DeleteEvent(eventId);
    got := service.GetEvent(eventId);
    again := service.DeleteEvent(eventId);
  }

  /** An example event. */
  const Example := Event("evt-1", "Launch", "Kickoff", "2025-03-01", "HQ", 50, "Alice", "active")

  lemma ExampleIsValid()
    ensures Violations(Example) == []
  {
    assert MatchesIdPattern(Example.eventId) by {
      assert forall i :: 0 <= i < |Example.eventId| ==> IsIdChar(Example.eventId[i]);
    }
    assert MatchesDatePattern(Example.date);
    CreateAcceptsIff(Example);
  }

  /** The update that sets only the capacity. */
  function CapacityUpdate(capacity: int): EventUpdate
  {
    EventUpdate(Unset, Unset, Unset, Unset, Given(Some(capacity)), Unset, Unset)
  }

  /** A positive new capacity is accepted, the store can hold it exactly when it
      has at most 38 digits, and merging it changes only the capacity. */
  lemma CapacityChange(e: Event, capacity: int)
    requires capacity > 0
    ensures UpdateViolations(CapacityUpdate(capacity)) == []
    ensures ModelDump(CapacityUpdate(capacity)) != []
    ensures SuppliedStorable(CapacityUpdate(capacity)) <==> capacity < NumberLimit
    ensures Merge(ViewOf(e), CapacityUpdate(capacity)) == ViewOf(e.(capacity := capacity))
  {
    var u := CapacityUpdate(capacity);
    UpdateAcceptsIff(u);
    SuppliedStorableIff(u);
    assert Setting(u, Capacity) != Unset;
    var w := Merge(ViewOf(e), u);
    forall f ensures ViewField(w, f) == ViewField(ViewOf(e.(capacity := capacity)), f) {
    }
    ViewExtensionality(w, ViewOf(e.(capacity := capacity)));
  }

  /** An example session: create, get, change the capacity, delete, get. */
  method ExampleSession()
  {
    var service := new EventService(map[]);
    ExampleIsValid();
    var created, got := CreateThenGet(service, Example);
    assert got == Ok(ViewOf(Example));

    RoundTrip(Example);
    CapacityChange(Example, 75);
    var updated, reread := UpdateThenGet(service, "evt-1", CapacityUpdate(75));
    assert updated == Ok(ViewOf(Example.(capacity := 75)));

    var gone, again := DeleteThenGet(service, "evt-1");
    assert gone == NotFound;
  }
}
