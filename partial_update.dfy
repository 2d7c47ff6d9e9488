/** The partial update: the `SET` expression with its name and value placeholder
    maps built from the supplied fields, the store's application of it, and what
    the stored record looks like afterwards. */
module PartialUpdate {
  import opened Events

  /** `parts` separated by `sep`, as `sep.join(parts)`. */
  function Join(parts: seq<string>, sep: string): string
  {
    if |parts| == 0 then ""
    else if |parts| == 1 then parts[0]
    else parts[0] + sep + Join(parts[1..], sep)
  }

  /** Appending a part to a non-empty join adds one separator and the part. */
  lemma {:induction false} JoinSnoc(parts: seq<string>, p: string, sep: string)
    requires |parts| > 0
    ensures Join(parts + [p], sep) == Join(parts, sep) + sep + p
  {
    if |parts| > 1 {
      assert (parts + [p])[1..] == parts[1..] + [p];
      JoinSnoc(parts[1..], p, sep);
    }
  }

  /** One assignment of the expression: `#a = :a` for storage attribute `a`. */
  function Clause(attribute: string): string
  {
    "#" + attribute + " = :" + attribute
  }

  function Clauses(fields: seq<(UpdateField, Option<Value>)>): (r: seq<string>)
    ensures |r| == |fields|
    ensures forall i :: 0 <= i < |fields| ==> r[i] == Clause(StorageName(fields[i].0))
  {
    seq(|fields|, i requires 0 <= i < |fields| => Clause(StorageName(fields[i].0)))
  }

  /** The update expression: `SET ` and one clause per supplied field, joined by `, `. */
  function SetExpression(fields: seq<(UpdateField, Option<Value>)>): string
  {
    "SET " + Join(Clauses(fields), ", ")
  }

  ghost predicate DistinctFields(fields: seq<(UpdateField, Option<Value>)>)
  {
    forall i, j :: 0 <= i < j < |fields| ==> fields[i].0 != fields[j].0
  }

  /** A dumped payload names each field at most once. */
  lemma DumpIsDistinct(u: EventUpdate)
    ensures DistinctFields(ModelDump(u))
  {
  }

  /** The placeholder keys `prefix + a`, one per supplied field. */
  ghost function PlaceholderKeys(prefix: string, fields: seq<(UpdateField, Option<Value>)>): set<string>
  {
    if |fields| == 0 then {}
    else PlaceholderKeys(prefix, fields[..|fields| - 1]) + {prefix + StorageName(fields[|fields| - 1].0)}
  }

  lemma {:induction false} PlaceholderKeysMembers(prefix: string, fields: seq<(UpdateField, Option<Value>)>, k: string)
    requires k in PlaceholderKeys(prefix, fields)
    ensures exists i :: 0 <= i < |fields| && k == prefix + StorageName(fields[i].0)
  {
    var last := |fields| - 1;
    if k != prefix + StorageName(fields[last].0) {
      PlaceholderKeysMembers(prefix, fields[..last], k);
      var i :| 0 <= i < last && k == prefix + StorageName(fields[..last][i].0);
      assert fields[..last][i] == fields[i];
    }
  }

  /** The name map sends `#a` to `a` and the value map sends `:a` to the supplied
      value, for the storage attribute `a` of each supplied field, and they hold
      no other key. */
  ghost predicate Placeholders(fields: seq<(UpdateField, Option<Value>)>,
                               names: map<string, string>, values: map<string, Option<Value>>)
  {
    && names.Keys == PlaceholderKeys("#", fields)
    && values.Keys == PlaceholderKeys(":", fields)
    && (forall i :: 0 <= i < |fields| ==>
          && "#" + StorageName(fields[i].0) in names
          && names["#" + StorageName(fields[i].0)] == StorageName(fields[i].0)
          && ":" + StorageName(fields[i].0) in values
          && values[":" + StorageName(fields[i].0)] == fields[i].1)
  }

  lemma PrefixCancels(p: string, a: string, b: string)
    ensures p + a == p + b ==> a == b
  {
    if p + a == p + b {
      assert a == (p + a)[|p|..];
      assert b == (p + b)[|p|..];
    }
  }

  /** Adding the clause of one more supplied field extends the expression by
      `, ` and that clause (no separator before the first). */
  lemma ExpressionSnoc(fields: seq<(UpdateField, Option<Value>)>, idx: nat)
    requires idx < |fields|
    ensures SetExpression(fields[..idx + 1]) ==
      SetExpression(fields[..idx]) + (if idx > 0 then ", " else "") + Clause(StorageName(fields[idx].0))
  {
    var done := fields[..idx + 1];
    assert done[..idx] == fields[..idx];
    assert Clauses(done) == Clauses(fields[..idx]) + [Clause(StorageName(fields[idx].0))];
    if idx > 0 {
      JoinSnoc(Clauses(fields[..idx]), Clause(StorageName(fields[idx].0)), ", ");
    }
  }

  /** Entering the placeholders of one more supplied field keeps the maps in step
      with the supplied fields. */
  lemma PlaceholdersSnoc(fields: seq<(UpdateField, Option<Value>)>, idx: nat,
                         names: map<string, string>, values: map<string, Option<Value>>)
    requires DistinctFields(fields) && idx < |fields|
    requires Placeholders(fields[..idx], names, values)
    ensures Placeholders(fields[..idx + 1],
                         names["#" + StorageName(fields[idx].0) := StorageName(fields[idx].0)],
                         values[":" + StorageName(fields[idx].0) := fields[idx].1])
  {
    var done, prev := fields[..idx + 1], fields[..idx];
    var a := StorageName(fields[idx].0);
    var names', values' := names["#" + a := a], values[":" + a := fields[idx].1];
    assert done[..idx] == prev;
    assert names'.Keys == PlaceholderKeys("#", done);
    assert values'.Keys == PlaceholderKeys(":", done);
    forall i | 0 <= i < idx + 1
      ensures "#" + StorageName(done[i].0) in names'
      ensures names'["#" + StorageName(done[i].0)] == StorageName(done[i].0)
      ensures ":" + StorageName(done[i].0) in values'
      ensures values'[":" + StorageName(done[i].0)] == done[i].1
    {
      if i < idx {
        var b := StorageName(prev[i].0);
        assert done[i] == prev[i];
        StorageNameInjective(prev[i].0, fields[idx].0);
        PrefixCancels("#", b, a);
        PrefixCancels(":", b, a);
        assert names'["#" + b] == names["#" + b];
        assert values'[":" + b] == values[":" + b];
      }
    }
  }

  /** Builds the expression and the two placeholder maps, clause by clause. */
  method BuildUpdate(fields: seq<(UpdateField, Option<Value>)>)
    returns (expression: string, names: map<string, string>, values: map<string, Option<Value>>)
    requires DistinctFields(fields)
    ensures expression == SetExpression(fields)
    ensures Placeholders(fields, names, values)
    ensures "#eventId" !in names && ":eventId" !in values
  {
    expression := "SET ";
    names := map[];
    values := map[];
    for idx := 0 to |fields|
      invariant expression == SetExpression(fields[..idx])
      invariant Placeholders(fields[..idx], names, values)
    {
      var (field, value) := fields[idx];
      var dbField := StorageName(field);
      ExpressionSnoc(fields, idx);
      PlaceholdersSnoc(fields, idx, names, values);
      if idx > 0 {
        expression := expression + ", ";
      }
      expression := expression + ("#" + dbField + " = :" + dbField);
      names := names["#" + dbField := dbField];
      values := values[":" + dbField := value];
    }
    assert fields[..|fields|] == fields;
    KeyHasNoPlaceholder(fields, names, values);
  }

  /** The key attribute never gets a placeholder. */
  lemma KeyHasNoPlaceholder(fields: seq<(UpdateField, Option<Value>)>,
                          names: map<string, string>, values: map<string, Option<Value>>)
    requires Placeholders(fields, names, values)
    ensures "#eventId" !in names && ":eventId" !in values
  {
    if "#eventId" in names {
      PlaceholderKeysMembers("#", fields, "#eventId");
    }
    if ":eventId" in values {
      PlaceholderKeysMembers(":", fields, ":eventId");
    }
  }

  /** The store's `SET` action for an expression whose clauses pair `#a` with `:a`:
      each attribute named in the name map takes the value of its `:` placeholder;
      every other attribute is kept. */
  function ApplySet(item: Item, names: map<string, string>, values: map<string, Option<Value>>): Item
  {
    item + map a | a in names.Values && ":" + a in values :: values[":" + a]
  }

  lemma ApplySetAt(item: Item, names: map<string, string>, values: map<string, Option<Value>>, a: string)
    ensures Lookup(ApplySet(item, names, values), a) ==
      if a in names.Values && ":" + a in values then values[":" + a] else Lookup(item, a)
    ensures a in ApplySet(item, names, values) <==> a in item || (a in names.Values && ":" + a in values)
  {
  }

  /** The storage attributes an update writes. */
  function UpdatedAttributes(u: EventUpdate): set<string>
  {
    set f | f in UpdateFields && Setting(u, f).Given? :: StorageName(f)
  }

  /** Keeps the current value of a field unless the update supplies one. */
  function Pick(s: Supplied<Value>, current: Option<Value>): Option<Value>
  {
    match s
    case Unset => current
    case Given(v) => v
  }

  /** The record after an update: supplied fields (nulls included) replaced, the
      others and the key kept. */
  function Merge(view: EventView, u: EventUpdate): (r: EventView)
    ensures forall f :: ViewField(r, f) == Pick(Setting(u, f), ViewField(view, f))
  {
    EventView(view.eventId,
              Pick(Setting(u, Title), view.title),
              Pick(Setting(u, Description), view.description),
              Pick(Setting(u, Date), view.date),
              Pick(Setting(u, Location), view.location),
              Pick(Setting(u, Capacity), view.capacity),
              Pick(Setting(u, Organizer), view.organizer),
              Pick(Setting(u, Status), view.status))
  }

  /** Every attribute the name map designates belongs to a supplied field. */
  lemma NamedAreUpdated(u: EventUpdate, names: map<string, string>, values: map<string, Option<Value>>)
    requires Placeholders(ModelDump(u), names, values)
    ensures forall a :: a in names.Values ==> a in UpdatedAttributes(u)
  {
    var fields := ModelDump(u);
    forall a | a in names.Values ensures a in UpdatedAttributes(u) {
      var k :| k in names && names[k] == a;
      PlaceholderKeysMembers("#", fields, k);
      var i :| 0 <= i < |fields| && k == "#" + StorageName(fields[i].0);
      AllFieldsInOrder(fields[i].0);
    }
  }

  /** The attribute of every supplied field is designated by the name map. */
  lemma UpdatedAreNamed(u: EventUpdate, names: map<string, string>, values: map<string, Option<Value>>)
    requires Placeholders(ModelDump(u), names, values)
    ensures forall a :: a in UpdatedAttributes(u) ==> a in names.Values
  {
    var fields := ModelDump(u);
    forall a | a in UpdatedAttributes(u) ensures a in names.Values {
      var f :| f in UpdateFields && Setting(u, f).Given? && a == StorageName(f);
      var i :| 0 <= i < |fields| && fields[i] == (f, Setting(u, f).value);
      assert names["#" + a] == a;
    }
  }

  /** Every supplied value sits under the `:` placeholder of its field's attribute. */
  lemma SuppliedValuesPlaced(u: EventUpdate, names: map<string, string>, values: map<string, Option<Value>>)
    requires Placeholders(ModelDump(u), names, values)
    ensures forall f :: Setting(u, f).Given? ==>
      ":" + StorageName(f) in values && values[":" + StorageName(f)] == Setting(u, f).value
  {
    var fields := ModelDump(u);
    forall f | Setting(u, f).Given?
      ensures ":" + StorageName(f) in values && values[":" + StorageName(f)] == Setting(u, f).value
    {
      var i :| 0 <= i < |fields| && fields[i] == (f, Setting(u, f).value);
    }
  }

  /** The attributes the name map designates are those of the supplied fields,
      and each has its supplied value under its `:` placeholder. */
  lemma NamedAttributes(u: EventUpdate, names: map<string, string>, values: map<string, Option<Value>>)
    requires Placeholders(ModelDump(u), names, values)
    ensures forall a :: a in names.Values <==> a in UpdatedAttributes(u)
    ensures forall f :: Setting(u, f).Given? ==>
      ":" + StorageName(f) in values && values[":" + StorageName(f)] == Setting(u, f).value
  {
    NamedAreUpdated(u, names, values);
    UpdatedAreNamed(u, names, values);
    SuppliedValuesPlaced(u, names, values);
  }

  /** One field of the record read back after the update. */
  lemma UpdatedField(item: Item, u: EventUpdate, names: map<string, string>,
                     values: map<string, Option<Value>>, f: Field)
    requires Placeholders(ModelDump(u), names, values)
    ensures ViewField(ToView(ApplySet(item, names, values)), f) == Pick(Setting(u, f), ViewField(ToView(item), f))
  {
    NamedAttributes(u, names, values);
    var a := StorageName(f);
    ApplySetAt(item, names, values, a);
    if Setting(u, f).Given? {
      AllFieldsInOrder(f);
      assert a in UpdatedAttributes(u);
    } else if a in UpdatedAttributes(u) {
      var g :| g in UpdateFields && Setting(u, g).Given? && a == StorageName(g);
      StorageNameInjective(f, g);
    }
  }

  /** The record read back after applying the built update is the old record
      merged with the update. */
  lemma UpdatedView(item: Item, u: EventUpdate, names: map<string, string>, values: map<string, Option<Value>>)
    requires Placeholders(ModelDump(u), names, values)
    ensures ToView(ApplySet(item, names, values)) == Merge(ToView(item), u)
  {
    var v, w := ToView(ApplySet(item, names, values)), Merge(ToView(item), u);
    forall f ensures ViewField(v, f) == ViewField(w, f) {
      UpdatedField(item, u, names, values, f);
    }
    ViewExtensionality(v, w);
  }

  /** Applying the built update writes exactly the attributes of the supplied
      fields: every other attribute, the key among them, keeps its value. */
  lemma {:induction false} WritesOnlySupplied(item: Item, u: EventUpdate,
                                       names: map<string, string>, values: map<string, Option<Value>>)
    requires Placeholders(ModelDump(u), names, values)
    ensures forall a :: a !in UpdatedAttributes(u) ==> Lookup(ApplySet(item, names, values), a) == Lookup(item, a)
    ensures ApplySet(item, names, values).Keys == item.Keys + UpdatedAttributes(u)
    ensures "eventId" !in UpdatedAttributes(u)
  {
    var after := ApplySet(item, names, values);
    NamedAttributes(u, names, values);
    forall a
      ensures a !in UpdatedAttributes(u) ==> Lookup(after, a) == Lookup(item, a)
      ensures a in after <==> a in item || a in UpdatedAttributes(u)
    {
      ApplySetAt(item, names, values, a);
    }
    if "eventId" in UpdatedAttributes(u) {
      var g :| g in UpdateFields && Setting(u, g).Given? && "eventId" == StorageName(g);
      StorageNameInjective(g, EventId);
    }
  }

  /** How an update changes one stored record: the supplied fields' attributes
      are added or overwritten, every other attribute keeps its value, and the
      record reads back as the old one merged with the update. */
  ghost predicate UpdatedRecord(before: Item, after: Item, u: EventUpdate)
  {
    && after.Keys == before.Keys + UpdatedAttributes(u)
    && (forall a :: a !in UpdatedAttributes(u) ==> Lookup(after, a) == Lookup(before, a))
    && ToView(after) == Merge(ToView(before), u)
  }

  /** Applying the built update changes the record as `UpdatedRecord` says and
      never touches its key. */
  lemma BuiltUpdateEffect(item: Item, u: EventUpdate, names: map<string, string>, values: map<string, Option<Value>>)
    requires Placeholders(ModelDump(u), names, values)
    ensures UpdatedRecord(item, ApplySet(item, names, values), u)
    ensures Lookup(ApplySet(item, names, values), "eventId") == Lookup(item, "eventId")
  {
    WritesOnlySupplied(item, u, names, values);
    UpdatedView(item, u, names, values);
  }

  /** Every value an update supplies can be written by the store's client. */
  ghost predicate SuppliedStorable(u: EventUpdate)
  {
    forall f :: Setting(u, f).Given? ==> Storable(Setting(u, f).value)
  }

  /** Only the capacity is a number, so only a capacity of 39 or more digits
      makes an update unwritable. */
  lemma SuppliedStorableIff(u: EventUpdate)
    ensures SuppliedStorable(u) <==>
      !(u.capacity.Given? && u.capacity.value.Some? && !(-NumberLimit < u.capacity.value.value < NumberLimit))
  {
    if u.capacity.Given? && u.capacity.value.Some? {
      assert Setting(u, Capacity) == Given(Some(Num(u.capacity.value.value)));
    }
    if !SuppliedStorable(u) {
      var f :| Setting(u, f).Given? && !Storable(Setting(u, f).value);
      assert f == Capacity;
    }
  }

  /** The value map the client serializes can be written exactly when every
      supplied value can. */
  lemma ValuesStorableIff(u: EventUpdate, names: map<string, string>, values: map<string, Option<Value>>)
    requires Placeholders(ModelDump(u), names, values)
    ensures ItemStorable(values) <==> SuppliedStorable(u)
  {
    var fields := ModelDump(u);
    SuppliedValuesPlaced(u, names, values);
    if ItemStorable(values) {
      forall f | Setting(u, f).Given? ensures Storable(Setting(u, f).value) {
        assert Storable(values[":" + StorageName(f)]);
      }
    }
    if SuppliedStorable(u) {
      forall k | k in values ensures Storable(values[k]) {
        PlaceholderKeysMembers(":", fields, k);
        var i :| 0 <= i < |fields| && k == ":" + StorageName(fields[i].0);
        assert Setting(u, fields[i].0) == Given(fields[i].1);
      }
    }
  }
}
