/** The update operators, applied to a document in whatever order Go iterates its
    maps: once by the stores, once by the simulation that validates a command. */
module Updates {
  import opened Values

  datatype UpdateOp = Set | Unset | Inc | Push | Pull | AddToSet

  function NameOf(op: UpdateOp): string {
    match op
    case Set => "$set"
    case Unset => "$unset"
    case Inc => "$inc"
    case Push => "$push"
    case Pull => "$pull"
    case AddToSet => "$addToSet"
  }

  function OpOf(name: string): Option<UpdateOp> {
    match name
    case "$set" => Some(Set)
    case "$unset" => Some(Unset)
    case "$inc" => Some(Inc)
    case "$push" => Some(Push)
    case "$pull" => Some(Pull)
    case "$addToSet" => Some(AddToSet)
    case _ => None
  }

  lemma {:induction false} NamesAreOps(name: string, op: UpdateOp)
    ensures OpOf(name) == Some(op) <==> name == NameOf(op)
  {
  }

  // ---- JSON

  /** What a value reads back as after a round through JSON text. */
  function Encode(v: Value): Value {
    match v
    case NilArr => Null
    case Arr(items) => Arr(seq(|items|, i requires 0 <= i < |items| => Encode(items[i])))
    case Obj(fields) => Obj(map k | k in fields :: Encode(fields[k]))
    case _ => v
  }

  /** No slice that was left empty by a filter, at any depth: decoded JSON. */
  predicate Decoded(v: Value) {
    match v
    case NilArr => false
    case Arr(items) => forall i | 0 <= i < |items| :: Decoded(items[i])
    case Obj(fields) => forall k | k in fields :: Decoded(fields[k])
    case _ => true
  }

  lemma {:induction false} EncodeDecoded(v: Value)
    requires Decoded(v)
    ensures Encode(v) == v
  {
    match v
    case Arr(items) =>
      forall i | 0 <= i < |items|
        ensures Encode(items[i]) == items[i]
      {
        EncodeDecoded(items[i]);
      }
    case Obj(fields) =>
      forall k | k in fields
        ensures Encode(fields[k]) == fields[k]
      {
        EncodeDecoded(fields[k]);
      }
    case _ =>
  }

  /** Encoding what was encoded changes nothing more. */
  lemma {:induction false} EncodeTwice(v: Value)
    ensures Decoded(Encode(v)) && Encode(Encode(v)) == Encode(v)
  {
    EncodedIsDecoded(v);
    EncodeDecoded(Encode(v));
  }

  lemma {:induction false} EncodedIsDecoded(v: Value)
    ensures Decoded(Encode(v))
  {
    match v
    case Arr(items) =>
      forall i | 0 <= i < |items|
        ensures Decoded(Encode(items[i]))
      {
        EncodedIsDecoded(items[i]);
      }
    case Obj(fields) =>
      forall k | k in fields
        ensures Decoded(Encode(fields[k]))
      {
        EncodedIsDecoded(fields[k]);
      }
    case _ =>
  }

  // ---- One operator on one field

  /** The stores compare values by their JSON text, the simulation by how Go
      prints them, which is a parameter here. */
  datatype Rules = Store | Simulation(fmt: Format)

  predicate Alike(rules: Rules, a: Value, b: Value) {
    if rules.Store? then Encode(a) == Encode(b) else rules.fmt(a) == rules.fmt(b)
  }

  predicate Contains(rules: Rules, items: seq<Value>, v: Value) {
    exists i | 0 <= i < |items| :: Alike(rules, items[i], v)
  }

  function Without(rules: Rules, items: seq<Value>, v: Value): (kept: seq<Value>)
    ensures kept == items <==> !Contains(rules, items, v)
    ensures |kept| <= |items|
  {
    if items == [] then []
    else
      var n := |items| - 1;
      var kept := Without(rules, items[..n], v);
      assert items == items[..n] + [items[n]];
      if Alike(rules, items[n], v) then kept else kept + [items[n]]
  }

  /** A field's new value, `None` for no field, from its old one. */
  function Effect(rules: Rules, op: UpdateOp, current: Option<Value>, v: Value): Option<Value> {
    match op
    case Set => Some(v)
    case Unset => None
    case Inc =>
      if current.None? then (if rules.Store? then Some(v) else None)
      else if current.value.Num? && v.Num? then Some(Num(current.value.n + v.n))
      else current
    case Push =>
      if current.None? then Some(Arr([v]))
      else if current.value.IsArray() then Some(Arr(current.value.Elements() + [v]))
      else current
    case Pull =>
      if current.Some? && current.value.IsArray() then
        var kept := Without(rules, current.value.Elements(), v);
        Some(if kept == [] && rules.Store? then NilArr else Arr(kept))
      else current
    case AddToSet =>
      if current.None? then Some(Arr([v]))
      else if current.value.IsArray() && !Contains(rules, current.value.Elements(), v) then
        Some(Arr(current.value.Elements() + [v]))
      else current
  }

  function Lookup(d: Document, f: string): Option<Value> {
    if f in d then Some(d[f]) else None
  }

  function Put(d: Document, f: string, v: Option<Value>): (r: Document)
    ensures forall g :: Lookup(r, g) == if g == f then v else Lookup(d, g)
  {
    if v.Some? then d[f := v.value] else d - {f}
  }

  lemma {:induction false} SameLookups(a: Document, b: Document)
    requires forall f :: Lookup(a, f) == Lookup(b, f)
    ensures a == b
  {
    forall f
      ensures f in a <==> f in b
      ensures f in a ==> a[f] == b[f]
    {
      assert Lookup(a, f) == Lookup(b, f);
    }
  }

  // ---- What an operator is for, by its name

  /** `kept` are, in their order, the items that are not like `v`. */
  ghost predicate LeavesOut(rules: Rules, picks: seq<nat>, kept: seq<Value>, items: seq<Value>, v: Value) {
    && |picks| == |kept|
    && (forall i, j | 0 <= i < j < |picks| :: picks[i] < picks[j])
    && (forall i | 0 <= i < |picks| :: picks[i] < |items| && kept[i] == items[picks[i]])
    && (forall k: nat | k < |items| :: k in picks <==>
          if rules.Store? then Encode(items[k]) != Encode(v) else rules.fmt(items[k]) != rules.fmt(v))
  }

  ghost predicate Filtered(rules: Rules, kept: seq<Value>, items: seq<Value>, v: Value) {
    exists picks :: LeavesOut(rules, picks, kept, items, v)
  }

  /** Has the operator of this name done to a field what it is for? */
  ghost predicate Did(rules: Rules, name: string, v: Value, before: Option<Value>, after: Option<Value>) {
    if name == "$set" then after == Some(v)
    else if name == "$unset" then after == None
    else if name == "$inc" then
      if before.None? then after == if rules.Store? then Some(v) else None
      else after == if before.value.Num? && v.Num? then Some(Num(before.value.n + v.n)) else before
    else if before.None? then
      after == if name == "$push" || name == "$addToSet" then Some(Arr([v])) else None
    else if !before.value.IsArray() then after == before
    else if name == "$push" then after == Some(Arr(before.value.Elements() + [v]))
    else if name == "$addToSet" then
      after == if exists x | x in before.value.Elements() ::
                 if rules.Store? then Encode(x) == Encode(v) else rules.fmt(x) == rules.fmt(v)
               then before else Some(Arr(before.value.Elements() + [v]))
    else
      && name == "$pull" && after.Some? && after.value.IsArray()
      && Filtered(rules, after.value.Elements(), before.value.Elements(), v)
      && (after.value.NilArr? <==> rules.Store? && after.value.Elements() == [])
  }

  lemma {:induction false} LeavesOutOne(rules: Rules, picks: seq<nat>, kept: seq<Value>, items: seq<Value>, v: Value,
                                    x: Value)
    requires LeavesOut(rules, picks, kept, items, v)
    ensures if Alike(rules, x, v) then LeavesOut(rules, picks, kept, items + [x], v)
            else LeavesOut(rules, picks + [|items|], kept + [x], items + [x], v)
  {
    hide Encode;
    var all := picks + [|items|];
    assert |items| !in picks;
    assert forall k :: k in all <==> k in picks || k == |items|;
  }

  lemma {:induction false} NothingLeft(rules: Rules, v: Value)
    ensures LeavesOut(rules, [], Without(rules, [], v), [], v)
  {
  }

  lemma {:induction false} WithoutStep(rules: Rules, items: seq<Value>, x: Value, v: Value)
    ensures Without(rules, items + [x], v) ==
            if Alike(rules, x, v) then Without(rules, items, v) else Without(rules, items, v) + [x]
  {
    assert (items + [x])[..|items|] == items;
  }

  lemma {:induction false} WithoutFilters(rules: Rules, items: seq<Value>, v: Value)
    ensures Filtered(rules, Without(rules, items, v), items, v)
    decreases items
  {
    hide Without, Alike, LeavesOut;
    if items == [] {
      NothingLeft(rules, v);
    } else {
      var init, last := items[..|items| - 1], items[|items| - 1];
      WithoutFilters(rules, init, v);
      var picks :| LeavesOut(rules, picks, Without(rules, init, v), init, v);
      assert items == init + [last];
      LeavesOutOne(rules, picks, Without(rules, init, v), init, v, last);
      WithoutStep(rules, init, last, v);
    }
  }

  lemma {:induction false} ContainsAlike(rules: Rules, items: seq<Value>, v: Value)
    ensures Contains(rules, items, v) <==>
            exists x | x in items :: if rules.Store? then Encode(x) == Encode(v) else rules.fmt(x) == rules.fmt(v)
  {
    hide Encode;
    if x :| x in items && Alike(rules, x, v) {
      var i :| 0 <= i < |items| && items[i] == x;
      assert Alike(rules, items[i], v);
    }
  }

  lemma {:induction false} EffectDoes(rules: Rules, op: UpdateOp, before: Option<Value>, v: Value)
    ensures Did(rules, NameOf(op), v, before, Effect(rules, op, before, v))
  {
    hide Encode, Contains, Without, Filtered;
    if before.Some? && before.value.IsArray() {
      WithoutFilters(rules, before.value.Elements(), v);
      ContainsAlike(rules, before.value.Elements(), v);
    }
  }

  // ---- What an update is for

  const UPDATES: set<string> := {"$set", "$unset", "$inc", "$push", "$pull", "$addToSet"}

  predicate Asks(u: map<string, Value>, name: string, f: string) {
    name in UPDATES && name in u && u[name].Obj? && f in u[name].fields
  }

  /** No field is named by two operators. */
  ghost predicate NamedOnce(u: map<string, Value>) {
    forall f, a, b | Asks(u, a, f) && Asks(u, b, f) :: a == b
  }

  /** Every field named has had its operator, and all others are what they were. */
  ghost predicate Meets(rules: Rules, u: map<string, Value>, before: Document, after: Document) {
    && (forall name, f | Asks(u, name, f) :: Did(rules, name, u[name].fields[f], Lookup(before, f), Lookup(after, f)))
    && (forall f | f in before || f in after ::
          (exists name :: Asks(u, name, f)) || Lookup(after, f) == Lookup(before, f))
  }

  // ---- An update as steps in some order

  datatype Step = Step(op: UpdateOp, field: string, value: Value)

  function RunStep(rules: Rules, s: Step, d: Document): Document {
    Put(d, s.field, Effect(rules, s.op, Lookup(d, s.field), s.value))
  }

  function Run(rules: Rules, steps: seq<Step>, d: Document): Document {
    if steps == [] then d
    else RunStep(rules, steps[|steps| - 1], Run(rules, steps[..|steps| - 1], d))
  }

  lemma {:induction false} RunOne(rules: Rules, steps: seq<Step>, s: Step, d: Document)
    ensures Run(rules, steps + [s], d) == RunStep(rules, s, Run(rules, steps, d))
  {
    assert (steps + [s])[..|steps|] == steps;
  }

  predicate InUpdate(u: map<string, Value>, s: Step) {
    var name := NameOf(s.op);
    name in u && u[name].Obj? && s.field in u[name].fields && u[name].fields[s.field] == s.value
  }

  predicate Distinct(steps: seq<Step>) {
    forall i, j | 0 <= i < j < |steps| :: steps[i] != steps[j]
  }

  /** The steps of the update, each once, in any order. */
  ghost predicate Schedules(u: map<string, Value>, steps: seq<Step>) {
    Distinct(steps) && forall s :: s in steps <==> InUpdate(u, s)
  }

  /** The steps of the operators already iterated. */
  ghost predicate SchedulesNames(u: map<string, Value>, steps: seq<Step>, names: set<string>) {
    Distinct(steps) && forall s :: s in steps <==> InUpdate(u, s) && NameOf(s.op) in names
  }

  /** The steps of the operators already iterated, and of the current one those
      whose fields are. */
  ghost predicate SchedulesSome(u: map<string, Value>, steps: seq<Step>, names: set<string>, name: string,
                                fields: set<string>)
  {
    Distinct(steps) &&
    forall s :: s in steps <==>
      InUpdate(u, s) && (NameOf(s.op) in names || (NameOf(s.op) == name && s.field in fields))
  }

  lemma {:induction false} ScheduleOne(u: map<string, Value>, steps: seq<Step>, names: set<string>, name: string,
                                       fields: set<string>, s: Step)
    requires SchedulesSome(u, steps, names, name, fields) && name !in names
    requires InUpdate(u, s) && NameOf(s.op) == name && s.field !in fields
    ensures SchedulesSome(u, steps + [s], names, name, fields + {s.field})
  {
    NamesAreOps(name, s.op);
    forall t
      ensures t in steps + [s] <==>
              InUpdate(u, t) && (NameOf(t.op) in names || (NameOf(t.op) == name && t.field in fields + {s.field}))
    {
      NamesAreOps(NameOf(t.op), s.op);
      NamesAreOps(NameOf(t.op), t.op);
    }
  }

  lemma {:induction false} ScheduleDone(u: map<string, Value>, steps: seq<Step>, names: set<string>, name: string)
    requires name in u
    requires SchedulesSome(u, steps, names, name, if u[name].Obj? && OpOf(name).Some? then u[name].fields.Keys else {})
    ensures SchedulesNames(u, steps, names + {name})
  {
    forall s | InUpdate(u, s) && NameOf(s.op) == name
      ensures s.field in u[name].fields.Keys && OpOf(name).Some?
    {
      NamesAreOps(name, s.op);
    }
  }

  class Doc {
    var fields: Document

    constructor (fields: Document)
      ensures this.fields == fields
    {
      this.fields := fields;
    }

    /** One pass of the innermost loops. */
    method Apply(rules: Rules, op: UpdateOp, field: string, value: Value)
      modifies this
      ensures fields == RunStep(rules, Step(op, field, value), old(fields))
      ensures Did(rules, NameOf(op), value, Lookup(old(fields), field), Lookup(fields, field))
      ensures forall f | f != field :: Lookup(fields, f) == Lookup(old(fields), f)
    {
      hide Did, Encode, Alike, Without, Contains;
      match op {
        case Set => fields := fields[field := value];
        case Unset => fields := fields - {field};
        case Inc =>
          if field in fields {
            if fields[field].Num? && value.Num? {
              fields := fields[field := Num(fields[field].n + value.n)];
            }
          } else if rules.Store? {
            fields := fields[field := value];
          }
        case Push =>
          if field in fields {
            if fields[field].IsArray() {
              fields := fields[field := Arr(fields[field].Elements() + [value])];
            }
          } else {
            fields := fields[field := Arr([value])];
          }
        case Pull =>
          if field in fields && fields[field].IsArray() {
            var kept := Filter(rules, fields[field].Elements(), value);
            fields := fields[field := if kept == [] && rules.Store? then NilArr else Arr(kept)];
          }
        case AddToSet =>
          if field in fields {
            if fields[field].IsArray() {
              var found := Find(rules, fields[field].Elements(), value);
              if !found {
                fields := fields[field := Arr(fields[field].Elements() + [value])];
              }
            }
          } else {
            fields := fields[field := Arr([value])];
          }
      }
      SameLookups(fields, RunStep(rules, Step(op, field, value), old(fields)));
      EffectDoes(rules, op, Lookup(old(fields), field), value);
    }

    method Filter(rules: Rules, items: seq<Value>, value: Value) returns (kept: seq<Value>)
      ensures kept == Without(rules, items, value)
    {
      kept := [];
      for i := 0 to |items|
        invariant kept == Without(rules, items[..i], value)
      {
        assert items[..i + 1][..i] == items[..i];
        if !Alike(rules, items[i], value) {
          kept := kept + [items[i]];
        }
      }
      assert items[..|items|] == items;
    }

    method Find(rules: Rules, items: seq<Value>, value: Value) returns (found: bool)
      ensures found == Contains(rules, items, value)
    {
      for i := 0 to |items|
        invariant !Contains(rules, items[..i], value)
      {
        if Alike(rules, items[i], value) {
          return true;
        }
        assert forall j | 0 <= j < i :: items[..i][j] == items[j];
      }
      assert items[..|items|] == items;
      return false;
    }

    /** applyUpdateOperations, and with the other rules simulateMongoOperations. */
    method ApplyUpdateOperations(rules: Rules, updateMap: map<string, Value>) returns (ghost steps: seq<Step>)
      modifies this
      ensures Schedules(updateMap, steps) && fields == Run(rules, steps, old(fields))
      ensures NamedOnce(updateMap) ==> Meets(rules, updateMap, old(fields), fields)
    {
      steps := [];
      var todo := updateMap.Keys;
      while todo != {}
        invariant todo <= updateMap.Keys
        invariant SchedulesNames(updateMap, steps, updateMap.Keys - todo)
        invariant fields == Run(rules, steps, old(fields))
        decreases |todo|
      {
        var operation :| operation in todo;
        ghost var names := updateMap.Keys - todo;
        var op := OpOf(operation);
        if updateMap[operation].Obj? && op.Some? {
          steps := ApplyFields(rules, updateMap, operation, op.value, steps, names, old(fields));
        }
        ScheduleDone(updateMap, steps, names, operation);
        todo := todo - {operation};
        assert names + {operation} == updateMap.Keys - todo;
      }
      assert updateMap.Keys - {} == updateMap.Keys;
      if NamedOnce(updateMap) {
        UpdateMeets(rules, updateMap, steps, old(fields));
      }
    }

    /** The fields of one operator. */
    method ApplyFields(rules: Rules, updateMap: map<string, Value>, operation: string, op: UpdateOp,
                       ghost before: seq<Step>, ghost names: set<string>, ghost start: Document)
      returns (ghost steps: seq<Step>)
      requires operation in updateMap && updateMap[operation].Obj? && operation == NameOf(op) && operation !in names
      requires SchedulesSome(updateMap, before, names, operation, {}) && fields == Run(rules, before, start)
      modifies this
      ensures SchedulesSome(updateMap, steps, names, operation, updateMap[operation].fields.Keys)
      ensures fields == Run(rules, steps, start)
    {
      steps := before;
      var fieldMap := updateMap[operation].fields;
      var todo := fieldMap.Keys;
      while todo != {}
        invariant todo <= fieldMap.Keys
        invariant SchedulesSome(updateMap, steps, names, operation, fieldMap.Keys - todo)
        invariant fields == Run(rules, steps, start)
        decreases |todo|
      {
        var field :| field in todo;
        var value := fieldMap[field];
        Apply(rules, op, field, value);
        RunOne(rules, steps, Step(op, field, value), start);
        ScheduleOne(updateMap, steps, names, operation, fieldMap.Keys - todo, Step(op, field, value));
        steps := steps + [Step(op, field, value)];
        assert fieldMap.Keys - todo + {field} == fieldMap.Keys - (todo - {field});
        todo := todo - {field};
      }
      assert fieldMap.Keys - {} == fieldMap.Keys;
    }
  }

  // ---- Order independence

  lemma {:induction false} OneStepEach(u: map<string, Value>, s: Step, t: Step)
    requires NamedOnce(u) && InUpdate(u, s) && InUpdate(u, t) && s.field == t.field
    ensures s == t
  {
    assert Asks(u, NameOf(s.op), s.field) && Asks(u, NameOf(t.op), s.field);
    NamesAreOps(NameOf(s.op), t.op);
  }

  /** A field no step names keeps its value. */
  lemma {:induction false} UnnamedKept(rules: Rules, steps: seq<Step>, d: Document, f: string)
    requires forall s | s in steps :: s.field != f
    ensures Lookup(Run(rules, steps, d), f) == Lookup(d, f)
    decreases steps
  {
    if steps != [] {
      var init, last := steps[..|steps| - 1], steps[|steps| - 1];
      assert last in steps;
      assert forall s | s in init :: s in steps;
      UnnamedKept(rules, init, d, f);
    }
  }

  /** A field one step names gets that step's effect on its first value. */
  lemma {:induction false} NamedUpdated(rules: Rules, steps: seq<Step>, d: Document, s: Step)
    requires Distinct(steps) && s in steps
    requires forall t | t in steps && t.field == s.field :: t == s
    ensures Lookup(Run(rules, steps, d), s.field) == Effect(rules, s.op, Lookup(d, s.field), s.value)
    decreases steps
  {
    var n := |steps| - 1;
    var init, last := steps[..n], steps[n];
    assert last in steps;
    assert forall t | t in init :: t in steps;
    if last == s {
      forall t | t in init
        ensures t.field != s.field
      {
        var i :| 0 <= i < n && steps[i] == t;
        assert steps[i] != steps[n];
      }
      UnnamedKept(rules, init, d, s.field);
    } else {
      assert s in init by {
        var i :| 0 <= i <= n && steps[i] == s;
        assert init[i] == s;
      }
      NamedUpdated(rules, init, d, s);
    }
  }

  /** The value every field has after an update that names each field once. */
  lemma {:induction false} UpdatedFields(rules: Rules, u: map<string, Value>, steps: seq<Step>, d: Document, f: string)
    requires NamedOnce(u) && Schedules(u, steps)
    ensures forall s | InUpdate(u, s) && s.field == f ::
      Lookup(Run(rules, steps, d), f) == Effect(rules, s.op, Lookup(d, f), s.value)
    ensures (forall s | InUpdate(u, s) :: s.field != f) ==> Lookup(Run(rules, steps, d), f) == Lookup(d, f)
  {
    if s :| InUpdate(u, s) && s.field == f {
      forall t | t in steps && t.field == f
        ensures t == s
      {
        OneStepEach(u, s, t);
      }
      NamedUpdated(rules, steps, d, s);
      forall t | InUpdate(u, t) && t.field == f
        ensures t == s
      {
        OneStepEach(u, s, t);
      }
    } else {
      UnnamedKept(rules, steps, d, f);
    }
  }

  /** In any update each step does what its operator is for, and nothing to other fields. */
  lemma {:induction false} EachStepDoes(rules: Rules, steps: seq<Step>, s: Step, d: Document, f: string)
    ensures var before, after := Lookup(Run(rules, steps, d), f), Lookup(Run(rules, steps + [s], d), f);
      if f == s.field then Did(rules, NameOf(s.op), s.value, before, after) else after == before
  {
    hide Did, Effect;
    RunOne(rules, steps, s, d);
    EffectDoes(rules, s.op, Lookup(Run(rules, steps, d), s.field), s.value);
  }

  /** With every field named once, the update does what it is for, in any order. */
  lemma {:induction false} UpdateMeets(rules: Rules, u: map<string, Value>, steps: seq<Step>, d: Document)
    requires NamedOnce(u) && Schedules(u, steps)
    ensures Meets(rules, u, d, Run(rules, steps, d))
  {
    hide Run, Effect, Did, NamedOnce, Schedules;
    forall name, f | Asks(u, name, f)
      ensures Did(rules, name, u[name].fields[f], Lookup(d, f), Lookup(Run(rules, steps, d), f))
    {
      OpNamed(name);
      var op := OpOf(name).value;
      assert InUpdate(u, Step(op, f, u[name].fields[f]));
      UpdatedFields(rules, u, steps, d, f);
      EffectDoes(rules, op, Lookup(d, f), u[name].fields[f]);
    }
    forall f | forall name :: !Asks(u, name, f)
      ensures Lookup(Run(rules, steps, d), f) == Lookup(d, f)
    {
      forall s | InUpdate(u, s)
        ensures s.field != f
      {
        assert Asks(u, NameOf(s.op), s.field);
      }
      UpdatedFields(rules, u, steps, d, f);
    }
  }

  lemma {:induction false} OpNamed(name: string)
    requires name in UPDATES
    ensures OpOf(name).Some? && NameOf(OpOf(name).value) == name
  {
  }

  /** No field named twice: every iteration order gives the same document. */
  lemma {:induction false} OrderIndependent(rules: Rules, u: map<string, Value>, s: seq<Step>, t: seq<Step>,
                                            d: Document)
    requires NamedOnce(u) && Schedules(u, s) && Schedules(u, t)
    ensures Run(rules, s, d) == Run(rules, t, d)
  {
    forall f
      ensures Lookup(Run(rules, s, d), f) == Lookup(Run(rules, t, d), f)
    {
      UpdatedFields(rules, u, s, d, f);
      UpdatedFields(rules, u, t, d, f);
    }
    SameLookups(Run(rules, s, d), Run(rules, t, d));
  }

  function SetAndUnset(f: string, v: Value): map<string, Value> {
    map["$set" := Obj(map[f := v]), "$unset" := Obj(map[f := v])]
  }

  /** A field named twice can end up with either outcome. */
  lemma {:induction false} OrderMatters(rules: Rules, f: string, v: Value, d: Document)
    ensures exists s, t ::
      Schedules(SetAndUnset(f, v), s) && Schedules(SetAndUnset(f, v), t) && Run(rules, s, d) != Run(rules, t, d)
  {
    var u := SetAndUnset(f, v);
    var a, b := Step(Set, f, v), Step(Unset, f, v);
    forall s
      ensures InUpdate(u, s) <==> s == a || s == b
    {
      NamesAreOps("$set", s.op);
      NamesAreOps("$unset", s.op);
    }
    assert Schedules(u, [a, b]) && Schedules(u, [b, a]);
    RunOne(rules, [a], b, d);
    RunOne(rules, [b], a, d);
    assert [a] + [b] == [a, b] && [b] + [a] == [b, a];
    assert Lookup(Run(rules, [a, b], d), f) != Lookup(Run(rules, [b, a], d), f);
  }

  lemma {:induction false} WithoutKeeps(rules: Rules, items: seq<Value>, v: Value)
    ensures Without(rules, items, v) != [] <==> exists i | 0 <= i < |items| :: !Alike(rules, items[i], v)
    decreases items
  {
    if items != [] {
      var n := |items| - 1;
      WithoutKeeps(rules, items[..n], v);
      assert forall i | 0 <= i < n :: items[..n][i] == items[i];
    }
  }

  /** A pull reads back as the filtered array exactly when some element is not like the
      value pulled; otherwise as null, where an empty array is meant. */
  lemma {:induction false} PullThenRead(items: seq<Value>, v: Value)
    requires Decoded(Arr(items))
    ensures var after := Encode(Effect(Store, Pull, Some(Arr(items)), v).value);
      if exists i | 0 <= i < |items| :: !Alike(Store, items[i], v)
      then after == Arr(Without(Store, items, v)) && Without(Store, items, v) != []
      else after == Null
  {
    WithoutKeeps(Store, items, v);
    WithoutDecoded(items, v);
    EncodeDecoded(Arr(Without(Store, items, v)));
  }

  lemma {:induction false} WithoutDecoded(items: seq<Value>, v: Value)
    requires forall i | 0 <= i < |items| :: Decoded(items[i])
    ensures forall i | 0 <= i < |Without(Store, items, v)| :: Decoded(Without(Store, items, v)[i])
    decreases items
  {
    if items != [] {
      WithoutDecoded(items[..|items| - 1], v);
    }
  }
}
