/** The field constraints of the `Event` and `EventUpdate` request models. The
    patterns are written as character predicates over ASCII. */
module Validation {
  import opened Events

  /** A character of the class `[a-zA-Z0-9\-_]`. */
  predicate IsIdChar(c: char)
  {
    ('a' <= c <= 'z') || ('A' <= c <= 'Z') || ('0' <= c <= '9') || c == '-' || c == '_'
  }

  predicate IsDigit(c: char)
  {
    '0' <= c <= '9'
  }

  /** `^[a-zA-Z0-9\-_]+$` */
  predicate MatchesIdPattern(s: string)
  {
    |s| >= 1 && forall i :: 0 <= i < |s| ==> IsIdChar(s[i])
  }

  /** `^\d{4}-\d{2}-\d{2}$`: the shape of a date; the calendar is not checked. */
  predicate MatchesDatePattern(s: string)
  {
    && |s| == 10
    && s[4] == '-' && s[7] == '-'
    && forall i :: 0 <= i < 10 && i != 4 && i != 7 ==> IsDigit(s[i])
  }

  /** `^(active|cancelled|completed)$` */
  predicate MatchesStatusPattern(s: string)
  {
    s == "active" || s == "cancelled" || s == "completed"
  }

  /** The type and constraint a field's value must meet. */
  predicate Satisfies(f: Field, v: Value)
  {
    match f
    case EventId => v.Str? && MatchesIdPattern(v.s)
    case Title => v.Str? && 1 <= |v.s| <= 200
    case Description => v.Str? && |v.s| <= 1000
    case Date => v.Str? && MatchesDatePattern(v.s)
    case Location => v.Str? && 1 <= |v.s| <= 200
    case Capacity => v.Num? && v.n > 0
    case Organizer => v.Str? && 1 <= |v.s| <= 100
    case Status => v.Str? && MatchesStatusPattern(v.s)
  }

  /** A field sent as null is accepted (the update model's fields are optional);
      a value must meet the field's constraint. */
  predicate Accepts(f: Field, v: Option<Value>)
  {
    v.None? || Satisfies(f, v.value)
  }

  /** The fields whose value is rejected, in the order given. */
  function Failing(pairs: seq<(Field, Option<Value>)>): (r: seq<Field>)
    ensures forall f :: f in r <==> exists i :: 0 <= i < |pairs| && pairs[i].0 == f && !Accepts(f, pairs[i].1)
    ensures |r| <= |pairs|
  {
    if pairs == [] then []
    else
      var rest := Failing(pairs[1..]);
      assert forall i :: 0 < i < |pairs| ==> pairs[i] == pairs[1..][i - 1];
      if Accepts(pairs[0].0, pairs[0].1) then rest else [pairs[0].0] + rest
  }

  /** The create payload, field by field in declaration order. */
  function EventFields(e: Event): (pairs: seq<(Field, Option<Value>)>)
    ensures |pairs| == |AllFields|
    ensures forall i :: 0 <= i < |pairs| ==> pairs[i] == (AllFields[i], Some(FieldValue(e, AllFields[i])))
  {
    seq(|AllFields|, i requires 0 <= i < |AllFields| => (AllFields[i], Some(FieldValue(e, AllFields[i]))))
  }

  /** The fields of a create payload that fail validation; create accepts the
      payload exactly when there are none. */
  function Violations(e: Event): (r: seq<Field>)
    ensures forall f :: f in r <==> !Satisfies(f, FieldValue(e, f))
  {
    var pairs := EventFields(e);
    var r := Failing(pairs);
    assert forall f :: f in r <==> !Satisfies(f, FieldValue(e, f)) by {
      forall f ensures f in r <==> !Satisfies(f, FieldValue(e, f)) {
        AllFieldsInOrder(f);
        assert pairs[Index(f)].0 == f;
      }
    }
    r
  }

  /** The fields of an update payload whose supplied value fails validation. */
  function UpdateViolations(u: EventUpdate): (r: seq<Field>)
    ensures forall f :: f in r <==> Setting(u, f).Given? && !Accepts(f, Setting(u, f).value)
  {
    var pairs: seq<(Field, Option<Value>)> := ModelDump(u);
    var r := Failing(pairs);
    assert forall f :: f in r <==> Setting(u, f).Given? && !Accepts(f, Setting(u, f).value) by {
      forall f ensures f in r <==> Setting(u, f).Given? && !Accepts(f, Setting(u, f).value) {
        if Setting(u, f).Given? {
          var i :| 0 <= i < |pairs| && pairs[i] == (f, Setting(u, f).value);
        }
      }
    }
    r
  }

  /** Create accepts a payload only if all eight constraints hold, and then it does. */
  lemma {:induction false} CreateAcceptsIff(e: Event)
    ensures Violations(e) == [] <==>
      && MatchesIdPattern(e.eventId)
      && 1 <= |e.title| <= 200
      && |e.description| <= 1000
      && MatchesDatePattern(e.date)
      && 1 <= |e.location| <= 200
      && e.capacity > 0
      && 1 <= |e.organizer| <= 100
      && MatchesStatusPattern(e.status)
  {
    var r := Violations(e);
    if r != [] {
      assert !Satisfies(r[0], FieldValue(e, r[0]));
    } else {
      assert forall f :: Satisfies(f, FieldValue(e, f)) by {
        forall f ensures Satisfies(f, FieldValue(e, f)) {
          assert f !in r;
        }
      }
      assert Satisfies(EventId, FieldValue(e, EventId));
      assert Satisfies(Title, FieldValue(e, Title));
      assert Satisfies(Description, FieldValue(e, Description));
      assert Satisfies(Date, FieldValue(e, Date));
      assert Satisfies(Location, FieldValue(e, Location));
      assert Satisfies(Capacity, FieldValue(e, Capacity));
      assert Satisfies(Organizer, FieldValue(e, Organizer));
      assert Satisfies(Status, FieldValue(e, Status));
    }
  }

  /** An update is rejected exactly when one of the fields it supplies carries a
      value that fails that field's constraint. */
  lemma {:induction false} UpdateAcceptsIff(u: EventUpdate)
    ensures UpdateViolations(u) == [] <==>
      forall f :: Setting(u, f).Given? ==> Accepts(f, Setting(u, f).value)
  {
    var r := UpdateViolations(u);
    if r != [] {
      assert r[0] in r;
    }
  }

  /** An update that sets no field has nothing to reject. */
  lemma EmptyUpdateIsValid(u: EventUpdate)
    requires ModelDump(u) == []
    ensures UpdateViolations(u) == []
  {
  }
}
