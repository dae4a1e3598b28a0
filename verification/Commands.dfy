/** An update command sent to a collection: what the validation event is shown
    against what the store then keeps. */
module Commands {
  import opened Values
  import opened Updates

  type Operations = map<string, map<string, Value>>

  function AddOperation(m: Operations, name: string, field: string, value: Value): Operations {
    m[name := (if name in m then m[name] else map[])[field := value]]
  }

  function UpdateMap(m: Operations): map<string, Value> {
    map name | name in m :: Obj(m[name])
  }

  class UpdateBuilder {
    var operations: Operations

    constructor ()
      ensures operations == map[]
    {
      operations := map[];
    }

    method Add(name: string, field: string, value: Value)
      modifies this
      ensures operations == AddOperation(old(operations), name, field, value)
    {
      if name !in operations {
        operations := operations[name := map[]];
      }
      operations := operations[name := operations[name][field := value]];
    }

    method Set(field: string, value: Value)
      modifies this
      ensures operations == AddOperation(old(operations), "$set", field, value)
    {
      Add("$set", field, value);
    }

    method Unset(field: string)
      modifies this
      ensures operations == AddOperation(old(operations), "$unset", field, Str(""))
    {
      Add("$unset", field, Str(""));
    }

    method Inc(field: string, value: Value)
      modifies this
      ensures operations == AddOperation(old(operations), "$inc", field, value)
    {
      Add("$inc", field, value);
    }

    method ToMap() returns (result: map<string, Value>)
      ensures result == UpdateMap(operations)
    {
      result := map[];
      var todo := operations.Keys;
      while todo != {}
        invariant todo <= operations.Keys
        invariant result == map name | name in operations.Keys - todo :: Obj(operations[name])
        decreases |todo|
      {
        var op :| op in todo;
        result := result[op := Obj(operations[op])];
        todo := todo - {op};
      }
    }

    /** The loops of handleMongoCommand that turn a body into an update. */
    method Convert(body: map<string, Value>)
      requires operations == map[]
      modifies this
      ensures Converted(body, UpdateMap(operations))
    {
      var todo := body.Keys;
      while todo != {}
        invariant todo <= body.Keys
        invariant ConvertedNames(body, UpdateMap(operations), body.Keys - todo)
        decreases |todo|
      {
        var op :| op in todo;
        if body[op].Obj? {
          ConvertFields(body, op, body.Keys - todo);
        } else {
          assert forall s :: InUpdate(body, s) ==> NameOf(s.op) != op;
        }
        assert body.Keys - todo + {op} == body.Keys - (todo - {op});
        todo := todo - {op};
      }
      assert body.Keys - {} == body.Keys;
    }

    method ConvertFields(body: map<string, Value>, op: string, ghost names: set<string>)
      requires op in body && body[op].Obj? && op !in names
      requires ConvertedNames(body, UpdateMap(operations), names)
      modifies this
      ensures ConvertedNames(body, UpdateMap(operations), names + {op})
    {
      var valueMap := body[op].fields;
      var todo := valueMap.Keys;
      while todo != {}
        invariant todo <= valueMap.Keys
        invariant ConvertedSome(body, UpdateMap(operations), names, op, valueMap.Keys - todo)
        decreases |todo|
      {
        var field :| field in todo;
        ghost var before := operations;
        match op {
          case "$set" => Set(field, valueMap[field]);
          case "$inc" => Inc(field, valueMap[field]);
          case "$unset" => Unset(field);
          case _ =>
        }
        ConvertOne(body, before, operations, names, op, valueMap.Keys - todo, field);
        assert valueMap.Keys - todo + {field} == valueMap.Keys - (todo - {field});
        todo := todo - {field};
      }
      assert valueMap.Keys - {} == valueMap.Keys;
    }
  }

  // ---- What of a body is stored

  /** The three operators a body passes on. */
  predicate Stores(op: UpdateOp) {
    op.Set? || op.Unset? || op.Inc?
  }

  function StoredValue(op: UpdateOp, v: Value): Value {
    if op.Unset? then Str("") else v
  }

  predicate Names(u: map<string, Value>, op: UpdateOp, field: string) {
    var name := NameOf(op);
    name in u && u[name].Obj? && field in u[name].fields
  }

  /** `u` has exactly the stored operators of `body`, on the same fields. */
  ghost predicate Converted(body: map<string, Value>, u: map<string, Value>) {
    forall op, field ::
      && (Names(u, op, field) <==> Stores(op) && Names(body, op, field))
      && (Names(u, op, field) && Names(body, op, field) ==>
            u[NameOf(op)].fields[field] == StoredValue(op, body[NameOf(op)].fields[field]))
  }

  ghost predicate ConvertedSome(body: map<string, Value>, u: map<string, Value>, names: set<string>, name: string,
                                fields: set<string>)
  {
    forall op, field ::
      && (Names(u, op, field) <==>
            Stores(op) && Names(body, op, field) && (NameOf(op) in names || (NameOf(op) == name && field in fields)))
      && (Names(u, op, field) && Names(body, op, field) ==>
            u[NameOf(op)].fields[field] == StoredValue(op, body[NameOf(op)].fields[field]))
  }

  ghost predicate ConvertedNames(body: map<string, Value>, u: map<string, Value>, names: set<string>) {
    ConvertedSome(body, u, names, "", {})
  }

  /** What one more field does to the operations built so far. */
  function WithField(body: map<string, Value>, m: Operations, name: string, field: string): Operations
    requires name in body && body[name].Obj? && field in body[name].fields
  {
    var v := body[name].fields[field];
    match name
    case "$set" => AddOperation(m, name, field, v)
    case "$inc" => AddOperation(m, name, field, v)
    case "$unset" => AddOperation(m, name, field, Str(""))
    case _ => m
  }

  lemma {:induction false} ConvertOne(body: map<string, Value>, before: Operations, after: Operations,
                                      names: set<string>, name: string, fields: set<string>, field: string)
    requires name in body && body[name].Obj? && field in body[name].fields
    requires after == WithField(body, before, name, field)
    requires ConvertedSome(body, UpdateMap(before), names, name, fields)
    ensures ConvertedSome(body, UpdateMap(after), names, name, fields + {field})
  {
    forall op: UpdateOp, f
      ensures Names(UpdateMap(after), op, f) <==>
              Names(UpdateMap(before), op, f) || (Stores(op) && NameOf(op) == name && f == field)
      ensures Names(UpdateMap(after), op, f) ==>
              UpdateMap(after)[NameOf(op)].fields[f] ==
              if NameOf(op) == name && f == field then StoredValue(op, body[name].fields[field])
              else if Names(UpdateMap(before), op, f) then UpdateMap(before)[NameOf(op)].fields[f]
              else Null
    {
      NamesAreOps(name, op);
    }
  }

  // ---- The simulation against the store

  /** Does the simulated field differ from the stored one? */
  predicate Diverges(fmt: Format, s: Step, current: Option<Value>) {
    match s.op
    case Set => false
    case Unset => false
    case Inc => current.None?
    case Push => current.None? || current.value.IsArray()
    case Pull =>
      current.Some? && current.value.IsArray() &&
      (current.value.NilArr? || Contains(Simulation(fmt), current.value.Elements(), s.value))
    case AddToSet =>
      current.None? ||
      (current.value.IsArray() && !Contains(Simulation(fmt), current.value.Elements(), s.value))
  }

  lemma {:induction false} FieldDiverges(fmt: Format, s: Step, current: Option<Value>)
    ensures Effect(Simulation(fmt), s.op, current, s.value) !=
            (if Stores(s.op) then Effect(Store, s.op, current, StoredValue(s.op, s.value)) else current)
            <==> Diverges(fmt, s, current)
  {
    if s.op.Push? && current.Some? && current.value.IsArray() {
      assert |current.value.Elements() + [s.value]| > |current.value.Elements()|;
    }
    if s.op.AddToSet? && current.Some? && current.value.IsArray() {
      assert |current.value.Elements() + [s.value]| > |current.value.Elements()|;
    }
  }

  ghost predicate NoneDiverges(fmt: Format, body: map<string, Value>, d: Document) {
    forall s | InUpdate(body, s) && s.field != "updatedAt" :: !Diverges(fmt, s, Lookup(d, s.field))
  }

  predicate SameButTime(a: Document, b: Document) {
    a - {"updatedAt"} == b - {"updatedAt"}
  }

  lemma {:induction false} SameFields(a: Document, b: Document)
    ensures SameButTime(a, b) <==> forall f :: f != "updatedAt" ==> Lookup(a, f) == Lookup(b, f)
  {
    if forall f :: f != "updatedAt" ==> Lookup(a, f) == Lookup(b, f) {
      forall f
        ensures Lookup(a - {"updatedAt"}, f) == Lookup(b - {"updatedAt"}, f)
      {
        assert f != "updatedAt" ==> Lookup(a, f) == Lookup(b, f);
      }
      SameLookups(a - {"updatedAt"}, b - {"updatedAt"});
    }
    if SameButTime(a, b) {
      forall f | f != "updatedAt"
        ensures Lookup(a, f) == Lookup(b, f)
      {
        assert Lookup(a, f) == Lookup(a - {"updatedAt"}, f);
        assert Lookup(b, f) == Lookup(b - {"updatedAt"}, f);
      }
    }
  }

  /** A command that names each field once, a field it names. */
  lemma {:induction false} SimulatedField(fmt: Format, body: map<string, Value>, u: map<string, Value>,
                                          s: seq<Step>, t: seq<Step>, d: Document, step: Step)
    requires NamedOnce(body) && Converted(body, u) && Schedules(body, s) && Schedules(u, t) && InUpdate(body, step)
    ensures Lookup(Run(Simulation(fmt), s, d), step.field) != Lookup(Run(Store, t, d), step.field)
            <==> Diverges(fmt, step, Lookup(d, step.field))
  {
    var f := step.field;
    ConvertedOnce(body, u);
    UpdatedFields(Simulation(fmt), body, s, d, f);
    UpdatedFields(Store, u, t, d, f);
    FieldDiverges(fmt, step, Lookup(d, f));
    assert Names(body, step.op, f);
    if Stores(step.op) {
      assert Names(u, step.op, f);
      assert InUpdate(u, Step(step.op, f, StoredValue(step.op, step.value)));
    } else {
      forall r | InUpdate(u, r)
        ensures r.field != f
      {
        StoredStep(body, u, r);
        if r.field == f {
          OneStepEach(body, step, Step(r.op, f, body[NameOf(r.op)].fields[f]));
        }
      }
    }
  }

  lemma {:induction false} StoredStep(body: map<string, Value>, u: map<string, Value>, r: Step)
    requires Converted(body, u) && InUpdate(u, r)
    ensures Stores(r.op) && Names(body, r.op, r.field)
    ensures InUpdate(body, Step(r.op, r.field, body[NameOf(r.op)].fields[r.field]))
  {
    assert Names(u, r.op, r.field);
  }

  lemma {:induction false} ConvertedOnce(body: map<string, Value>, u: map<string, Value>)
    requires NamedOnce(body) && Converted(body, u)
    ensures NamedOnce(u)
  {
    forall f, a, b | Asks(u, a, f) && Asks(u, b, f)
      ensures a == b
    {
      ConvertedAsks(body, u, a, f);
      ConvertedAsks(body, u, b, f);
    }
  }

  /** What is asked of the store is what the body asks for by the three names. */
  lemma {:induction false} ConvertedAsks(body: map<string, Value>, u: map<string, Value>, name: string, f: string)
    requires Converted(body, u)
    ensures Asks(u, name, f) <==> name in {"$set", "$unset", "$inc"} && Asks(body, name, f)
    ensures Asks(u, name, f) && name != "$unset" ==> u[name].fields[f] == body[name].fields[f]
  {
    if name in UPDATES {
      OpNamed(name);
      var op := OpOf(name).value;
      assert Names(u, op, f) <==> Stores(op) && Names(body, op, f);
    }
  }

  /** The validated document is the stored one, but for `updatedAt`, exactly when
      the command increments no missing field and neither pushes, pulls nor adds
      anything: those are simulated differently or not stored at all. */
  lemma {:induction false} SimulatedIsStored(fmt: Format, body: map<string, Value>, u: map<string, Value>,
                                             s: seq<Step>, t: seq<Step>, d: Document)
    requires NamedOnce(body) && Converted(body, u) && Schedules(body, s) && Schedules(u, t)
    ensures SameButTime(Run(Simulation(fmt), s, d), Run(Store, t, d)) <==> NoneDiverges(fmt, body, d)
  {
    var simulated, stored := Run(Simulation(fmt), s, d), Run(Store, t, d);
    SameFields(simulated, stored);
    forall step | InUpdate(body, step)
      ensures Lookup(simulated, step.field) != Lookup(stored, step.field) <==>
        Diverges(fmt, step, Lookup(d, step.field))
    {
      SimulatedField(fmt, body, u, s, t, d, step);
    }
    ConvertedOnce(body, u);
    forall f | forall step | InUpdate(body, step) :: step.field != f
      ensures Lookup(simulated, f) == Lookup(stored, f)
    {
      UpdatedFields(Simulation(fmt), body, s, d, f);
      forall r | InUpdate(u, r)
        ensures r.field != f
      {
        StoredStep(body, u, r);
      }
      UpdatedFields(Store, u, t, d, f);
    }
  }

  /** Every field named by one of the three operators that are stored has had it, and
      all others but `updatedAt` are what they were. */
  ghost predicate MeetsStored(body: map<string, Value>, before: Document, after: Document) {
    && (forall name, f | name in {"$set", "$unset", "$inc"} && Asks(body, name, f) && f != "updatedAt" ::
          Did(Store, name, body[name].fields[f], Lookup(before, f), Lookup(after, f)))
    && (forall f | (f in before || f in after) && f != "updatedAt" ::
          (exists name | name in {"$set", "$unset", "$inc"} :: Asks(body, name, f)) ||
          Lookup(after, f) == Lookup(before, f))
  }

  lemma {:induction false} StoredMeets(body: map<string, Value>, u: map<string, Value>, before: Document,
                                       after: Document, now: Value)
    requires Converted(body, u) && Meets(Store, u, before, after)
    ensures MeetsStored(body, before, after["updatedAt" := now])
  {
    hide Converted, Filtered, Encode;
    var stamped := after["updatedAt" := now];
    forall name, f | name in {"$set", "$unset", "$inc"} && Asks(body, name, f) && f != "updatedAt"
      ensures Did(Store, name, body[name].fields[f], Lookup(before, f), Lookup(stamped, f))
    {
      ConvertedAsks(body, u, name, f);
      assert Did(Store, name, u[name].fields[f], Lookup(before, f), Lookup(after, f));
    }
    forall f | (f in before || f in stamped) && f != "updatedAt"
      ensures (exists name | name in {"$set", "$unset", "$inc"} :: Asks(body, name, f)) ||
              Lookup(stamped, f) == Lookup(before, f)
    {
      if name :| Asks(u, name, f) {
        ConvertedAsks(body, u, name, f);
      }
    }
  }

  /** Both paths of a command: the simulation on a copy, and the update of the store. */
  ghost predicate Handles(body: map<string, Value>, before: Document, now: Value, fmt: Format, merged: Document,
                          stored: Document)
  {
    && (exists s :: Schedules(body, s) && merged == Run(Simulation(fmt), s, before))
    && exists u, t :: Converted(body, u) && Schedules(u, t) && stored == Run(Store, t, before)["updatedAt" := now]
  }

  /** handleMongoCommand on the document found: the document the Validate and Put
      events see, and the one the store writes at time `now`. */
  method HandleCommand(previous: Document, body: map<string, Value>, now: Value, fmt: Format)
    returns (merged: Document, stored: Document)
    ensures Handles(body, previous, now, fmt, merged, stored)
    ensures NamedOnce(body) ==> Meets(Simulation(fmt), body, previous, merged) && MeetsStored(body, previous, stored)
    ensures NamedOnce(body) ==> (SameButTime(merged, stored) <==> NoneDiverges(fmt, body, previous))
    ensures "updatedAt" in stored && stored["updatedAt"] == now
  {
    hide Meets, MeetsStored, NamedOnce, Schedules, Converted, Run, NoneDiverges;
    var copy := new Doc(previous);
    ghost var s := copy.ApplyUpdateOperations(Simulation(fmt), body);
    merged := copy.fields;

    var builder := new UpdateBuilder();
    builder.Convert(body);
    var updateMap := builder.ToMap();
    var doc := new Doc(previous);
    ghost var t := doc.ApplyUpdateOperations(Store, updateMap);
    stored := doc.fields["updatedAt" := now];

    if NamedOnce(body) {
      ConvertedOnce(body, updateMap);
      StoredMeets(body, updateMap, previous, doc.fields, now);
      SimulatedIsStored(fmt, body, updateMap, s, t, previous);
      SameFields(merged, doc.fields);
      SameFields(merged, stored);
    }
  }
}
