/** Updates of documents in columns: which steps of an update a row's columns can
    take, and what the row then reads as. */
module ColumnUpdates {
  import opened Values
  import opened Truth
  import opened Updates
  import opened Layouts
  import opened Stores

  /** Cells their columns keep, and an overflow that was decoded from JSON. */
  predicate Sound(l: Layout, row: Row) {
    && WellStored(l, row)
    && (forall k | k in row.cells :: KeptBy(row.cells[k], KindOf(l.columns, k), l.go))
    && EncodeDoc(row.data) == row.data
  }

  lemma {:induction false} KeptScalar(v: Value, kind: ColumnType, go: Library)
    requires KeptBy(v, kind, go)
    ensures (v.IsScalar() || v.Null?) && Encode(v) == v
  {
  }

  // ---- One step on one column

  /** Can the column take the step, given what its cell holds? */
  predicate StepFits(l: Layout, row: Row, s: Step) {
    s.field in Names(l.columns) ==>
      var kind, cell := KindOf(l.columns, s.field), Get(row.cells, s.field);
      match s.op
      case Set => !s.value.Null? && KeptBy(s.value, kind, l.go)
      case Unset => cell.Null?
      case Inc =>
        if cell.Null? then !s.value.Null? && KeptBy(s.value, kind, l.go)
        else cell.Num? && s.value.Num? ==> KeptBy(Num(cell.n + s.value.n), kind, l.go)
      case Push => !cell.Null?
      case Pull => true
      case AddToSet => !cell.Null?
  }

  function NonNull(v: Value): Option<Value> {
    if v.Null? then None else Some(v)
  }

  /** A field's value that the column takes over from its cell. */
  predicate ValueFits(l: Layout, row: Row, k: string, v: Option<Value>)
    requires k in Names(l.columns)
  {
    if v.None? then Get(row.cells, k).Null? else !v.value.Null? && KeptBy(v.value, KindOf(l.columns, k), l.go)
  }

  lemma {:induction false} EffectFits(l: Layout, row: Row, s: Step)
    requires Sound(l, row) && s.field in Names(l.columns)
    ensures ValueFits(l, row, s.field, Effect(Updates.Store, s.op, NonNull(Get(row.cells, s.field)), s.value))
            <==> StepFits(l, row, s)
  {
    KeptScalar(Get(row.cells, s.field), KindOf(l.columns, s.field), l.go);
  }

  lemma {:induction false} ScanColumnField(l: Layout, row: Row, k: string)
    requires WellStored(l, row) && k in Names(l.columns)
    ensures Lookup(Scan(row, AllNames(l.columns)), k) == NonNull(Get(row.cells, k))
  {
    ScanAt(l, row, AllNames(l.columns), k);
  }

  /** With every field named once, a column can be read back after the update exactly
      when it can take the step that names it, if one does. */
  lemma {:induction false} ColumnExactly(l: Layout, u: map<string, Value>, row: Row, steps: seq<Step>, now: Value,
                                         k: string)
    requires Sound(l, row) && "updatedAt" !in Names(l.columns) && k in Names(l.columns) && k != "id"
    requires NamedOnce(u) && Schedules(u, steps)
    ensures FieldRewritable(l, row, Stamped(steps, Scan(row, AllNames(l.columns)), now), k)
            <==> forall s | InUpdate(u, s) && s.field == k :: StepFits(l, row, s)
  {
    hide Run, Effect, StepFits, NamedOnce, Schedules, InUpdate, KeptBy;
    var d := Scan(row, AllNames(l.columns));
    ScanColumnField(l, row, k);
    UpdatedFields(Updates.Store, u, steps, d, k);
    FitsIsRewritable(l, row, Stamped(steps, d, now), k);
    assert Lookup(Stamped(steps, d, now), k) == Lookup(Run(Updates.Store, steps, d), k);
    forall s | InUpdate(u, s) && s.field == k
      ensures ValueFits(l, row, k, Lookup(Stamped(steps, d, now), k)) <==> StepFits(l, row, s)
    {
      EffectFits(l, row, s);
    }
    CellFits(l, row, k);
  }

  lemma {:induction false} FitsIsRewritable(l: Layout, row: Row, doc: Document, k: string)
    requires k in Names(l.columns) && k != "id"
    ensures FieldRewritable(l, row, doc, k) <==> ValueFits(l, row, k, Lookup(doc, k))
  {
  }

  lemma {:induction false} CellFits(l: Layout, row: Row, k: string)
    requires Sound(l, row) && k in Names(l.columns)
    ensures ValueFits(l, row, k, NonNull(Get(row.cells, k)))
  {
  }

  // ---- Updates that suit the columns of any row

  /** The identifier is left alone, no column is unset, pushed to or added to, and the
      values columns are set to or incremented by are not null and kept by them. */
  predicate StaticStep(l: Layout, s: Step) {
    s.field != "id" &&
    (s.field in Names(l.columns) ==>
       s.op.Pull? || ((s.op.Set? || s.op.Inc?) && !s.value.Null? && KeptBy(s.value, KindOf(l.columns, s.field), l.go)))
  }

  ghost predicate StaticUpdate(l: Layout, u: map<string, Value>) {
    forall s | InUpdate(u, s) :: StaticStep(l, s)
  }

  lemma {:induction false} SumKept(a: Value, b: Value, kind: ColumnType, go: Library)
    requires a.Num? && b.Num? && KeptBy(a, kind, go) && KeptBy(b, kind, go)
    ensures KeptBy(Num(a.n + b.n), kind, go)
  {
    assert kind.IntegerColumn? ==> a.n + b.n == (a.n.Floor + b.n.Floor) as real;
  }

  lemma {:induction false} StaticFits(l: Layout, row: Row, s: Step)
    requires Sound(l, row) && StaticStep(l, s)
    ensures StepFits(l, row, s)
  {
    if s.field in Names(l.columns) && s.op.Inc? {
      var cell := Get(row.cells, s.field);
      if cell.Num? && s.value.Num? {
        SumKept(cell, s.value, KindOf(l.columns, s.field), l.go);
      }
    }
  }

  lemma {:induction false} StaticEffect(l: Layout, row: Row, s: Step, current: Option<Value>)
    requires s.field in Names(l.columns) && StaticStep(l, s) && ValueFits(l, row, s.field, current)
    ensures ValueFits(l, row, s.field, Effect(Updates.Store, s.op, current, s.value))
  {
    var kind := KindOf(l.columns, s.field);
    if current.Some? {
      KeptScalar(current.value, kind, l.go);
      if s.op.Inc? && current.value.Num? && s.value.Num? {
        SumKept(current.value, s.value, kind, l.go);
      }
    }
  }

  /** In any order, and however often a field is named, they leave each column a value it takes. */
  lemma {:induction false} StaticRun(l: Layout, row: Row, steps: seq<Step>, d: Document, k: string)
    requires k in Names(l.columns) && k != "id" && ValueFits(l, row, k, Lookup(d, k))
    requires forall s | s in steps :: StaticStep(l, s)
    ensures ValueFits(l, row, k, Lookup(Run(Updates.Store, steps, d), k))
    decreases steps
  {
    hide StaticStep, Effect, ValueFits;
    if steps != [] {
      var init, last := steps[..|steps| - 1], steps[|steps| - 1];
      assert last in steps && forall s | s in init :: s in steps;
      StaticRun(l, row, init, d, k);
      if last.field == k {
        StaticEffect(l, row, last, Lookup(Run(Updates.Store, init, d), k));
      }
    }
  }

  lemma {:induction false} StaticLeavesId(l: Layout, u: map<string, Value>)
    requires StaticUpdate(l, u)
    ensures LeavesId(u)
  {
    forall s | InUpdate(u, s)
      ensures s.field != "id"
    {
      assert StaticStep(l, s);
    }
  }

  // ---- The row written

  /** A document whose columns can be read back: the identifier is the row's. */
  ghost predicate ColumnsFit(l: Layout, row: Row, doc: Document) {
    && Get(doc, "id") == Id(row)
    && forall k | k in Names(l.columns) && k != "id" :: FieldRewritable(l, row, doc, k)
  }

  predicate IsLayout(l: Layout) {
    && l.useColumns && HasData(l.columns) && "id" in Names(l.columns) && "updatedAt" !in Names(l.columns)
    && "id" !in Defaulted(l)
    && forall k | k in Defaulted(l) :: KeptBy(DefaultOf(l.columns, k), KindOf(l.columns, k), l.go)
  }

  lemma {:induction false} SoundScan(l: Layout, row: Row)
    requires Sound(l, row)
    ensures EncodeDoc(Scan(row, AllNames(l.columns))) == Scan(row, AllNames(l.columns))
  {
    hide Scan, AllNames, KeptBy, Encode;
    var d := Scan(row, AllNames(l.columns));
    forall k | k in d
      ensures Encode(d[k]) == d[k]
    {
      ScanAt(l, row, AllNames(l.columns), k);
      assert Lookup(d, k) == Some(d[k]);
      if k in row.cells {
        KeptScalar(row.cells[k], KindOf(l.columns, k), l.go);
      }
      if k in row.data {
        assert EncodeDoc(row.data)[k] == row.data[k];
      }
    }
  }

  lemma {:induction false} RewrittenSound(l: Layout, row: Row, doc: Document)
    requires Sound(l, row) && IsGo(l.go) && ColumnsFit(l, row, doc)
    ensures Sound(l, Rewritten(l, row, doc))
  {
    hide KeptBy, Convert, Encode;
    RewrittenStored(l, row, doc);
    EncodedAgain(Overflow(l, doc));
    var cells := Rewritten(l, row, doc).cells;
    forall k | k in cells
      ensures KeptBy(cells[k], KindOf(l.columns, k), l.go)
    {
      if k in doc && k in Names(l.columns) && k != "id" {
        assert FieldRewritable(l, row, doc, k);
        ConvertKeeps(doc[k], KindOf(l.columns, k), l.go);
      }
    }
  }

  lemma {:induction false} RewrittenFieldReads(l: Layout, row: Row, doc: Document, k: string)
    requires Sound(l, row) && IsGo(l.go) && IsLayout(l) && ColumnsFit(l, row, doc) && "updatedAt" in doc
    requires !Id(row).Null?
    ensures Lookup(Scan(Rewritten(l, row, doc), AllNames(l.columns)), k) == Lookup(EncodeDoc(doc), k)
  {
    hide Scan, AllNames, Rewritten, KeptBy, Encode, Convert;
    if k in Names(l.columns) {
      FieldReadsBack(l, row, doc, k);
      assert Lookup(Scan(Rewritten(l, row, doc), AllNames(l.columns)), k) == Lookup(doc, k);
      if k == "id" {
        KeptScalar(row.cells[k], KindOf(l.columns, k), l.go);
      } else if k in doc {
        assert FieldRewritable(l, row, doc, k);
        KeptScalar(doc[k], KindOf(l.columns, k), l.go);
      }
    } else {
      assert "updatedAt" in Overflow(l, doc);
      RewrittenField(l, row, doc, k);
      RewrittenStored(l, row, doc);
      ScanAt(l, Rewritten(l, row, doc), AllNames(l.columns), k);
    }
  }

  /** After the write, or without one where nothing changed, the row reads as the
      document's JSON. */
  lemma {:induction false} WrittenReads(l: Layout, row: Row, doc: Document)
    requires Sound(l, row) && IsGo(l.go) && IsLayout(l) && ColumnsFit(l, row, doc) && "updatedAt" in doc
    ensures Sound(l, Written(Columnar(l), row, doc))
    ensures !Id(row).Null? ==> Scan(Written(Columnar(l), row, doc), AllNames(l.columns)) == EncodeDoc(doc)
  {
    hide Scan, AllNames, Rewritten, Sound, ColumnsFit, IsLayout, EncodeDoc;
    SoundScan(l, row);
    RewrittenSound(l, row, doc);
    if !Id(row).Null? {
      forall k
        ensures Lookup(Scan(Rewritten(l, row, doc), AllNames(l.columns)), k) == Lookup(EncodeDoc(doc), k)
      {
        RewrittenFieldReads(l, row, doc, k);
      }
      SameLookups(Scan(Rewritten(l, row, doc), AllNames(l.columns)), EncodeDoc(doc));
    }
  }

  /** Each chosen document reads back as the JSON of its update, in its own iteration
      order; no other row changes; and all rows stay sound. */
  lemma {:induction false} UpdateReadsBack(l: Layout, u: map<string, Value>, now: Value, before: seq<Row>,
                                           after: seq<Row>, chosen: seq<nat>, i: nat)
    requires IsGo(l.go) && IsLayout(l) && StaticUpdate(l, u) && Updated(Columnar(l), u, now, before, after, chosen)
    requires i < |before| && Sound(l, before[i])
    ensures Sound(l, after[i])
    ensures i !in chosen ==> after[i] == before[i]
    ensures i in chosen && !Id(before[i]).Null? ==>
      exists steps | Schedules(u, steps) ::
        Scan(after[i], AllNames(l.columns)) == EncodeDoc(Stamped(steps, Scan(before[i], AllNames(l.columns)), now))
  {
    hide Scan, AllNames, EncodeDoc, Schedules, Run, Names, Sound, IsLayout, Written, ColumnsFit, StaticUpdate, IsGo,
      Stamped;
    if i in chosen {
      var doc := Read(Columnar(l), before[i]);
      var steps :| Schedules(u, steps) && after[i] == Written(Columnar(l), before[i], Stamped(steps, doc, now));
      StaticColumnsFit(l, u, before[i], steps, now);
      WrittenReads(l, before[i], Stamped(steps, doc, now));
    }
  }

  /** Read from the columns too, the chosen documents become what the update is for. */
  lemma {:induction false} ColumnsBecome(l: Layout, u: map<string, Value>, now: Value, before: seq<Row>,
                                         after: seq<Row>, chosen: seq<nat>, i: nat)
    requires IsGo(l.go) && IsLayout(l) && StaticUpdate(l, u) && NamedOnce(u)
    requires Updated(Columnar(l), u, now, before, after, chosen)
    requires i < |before| && Sound(l, before[i]) && i in chosen && !Id(before[i]).Null?
    ensures Became(u, now, Scan(before[i], AllNames(l.columns)), Scan(after[i], AllNames(l.columns)))
  {
    hide Scan, AllNames, EncodeDoc, Schedules, Run, Sound, IsLayout, StaticUpdate, IsGo, NamedOnce, Meets, After;
    UpdateReadsBack(l, u, now, before, after, chosen, i);
    var d := Scan(before[i], AllNames(l.columns));
    var steps :| Schedules(u, steps) && Scan(after[i], AllNames(l.columns)) == EncodeDoc(Stamped(steps, d, now));
    UpdateMeets(Updates.Store, u, steps, d);
    EncodedAgain(Stamped(steps, d, now));
  }

  lemma {:induction false} StampedAt(steps: seq<Step>, d: Document, now: Value, k: string)
    ensures Lookup(Stamped(steps, d, now), k) == if k == "updatedAt" then Some(now)
      else Lookup(Run(Updates.Store, steps, d), k)
  {
  }

  lemma {:induction false} StaticColumnsFit(l: Layout, u: map<string, Value>, row: Row, steps: seq<Step>, now: Value)
    requires IsLayout(l) && StaticUpdate(l, u) && Sound(l, row) && Schedules(u, steps)
    ensures var doc := Stamped(steps, Scan(row, AllNames(l.columns)), now);
      ColumnsFit(l, row, doc) && "updatedAt" in doc
  {
    hide Scan, AllNames, Run, KeptBy, StaticStep;
    var d := Scan(row, AllNames(l.columns));
    var doc := Stamped(steps, d, now);
    StaticLeavesId(l, u);
    StampedId(u, steps, d, now);
    IdReads(Columnar(l), row);
    forall k | k in Names(l.columns) && k != "id"
      ensures FieldRewritable(l, row, doc, k)
    {
      ScanColumnField(l, row, k);
      CellFits(l, row, k);
      StaticRun(l, row, steps, d, k);
      StampedAt(steps, d, now, k);
      FitsIsRewritable(l, row, doc, k);
    }
  }

  /** With every field named once, steps that fit this row are enough. */
  lemma {:induction false} FittingColumnsFit(l: Layout, u: map<string, Value>, row: Row, steps: seq<Step>, now: Value)
    requires IsLayout(l) && NamedOnce(u) && LeavesId(u) && Sound(l, row) && Schedules(u, steps)
    requires forall s | InUpdate(u, s) :: StepFits(l, row, s)
    ensures var doc := Stamped(steps, Scan(row, AllNames(l.columns)), now);
      ColumnsFit(l, row, doc) && "updatedAt" in doc
  {
    hide Scan, AllNames, Run, KeptBy, StepFits, NamedOnce, Sound;
    assert WellStored(l, row) by {
      SoundStored(l, row);
    }
    StampedId(u, steps, Scan(row, AllNames(l.columns)), now);
    IdReads(Columnar(l), row);
    forall k | k in Names(l.columns) && k != "id"
      ensures FieldRewritable(l, row, Stamped(steps, Scan(row, AllNames(l.columns)), now), k)
    {
      ColumnExactly(l, u, row, steps, now, k);
    }
  }

  lemma {:induction false} SoundStored(l: Layout, row: Row)
    requires Sound(l, row)
    ensures WellStored(l, row)
  {
  }

  // ---- The layouts this is about

  /** The columns every collection has; SQL fills in both times. */
  function SystemColumns(now: Value): seq<Column> {
    [Column("id", TextColumn, None), Column("created_at", DateColumn, Some(now)),
     Column("updated_at", DateColumn, Some(now)), Column("data", JsonColumn, None)]
  }

  lemma {:induction false} NamesConcat(a: seq<Column>, c: Column, k: string)
    ensures k in Names(a + [c]) <==> k in Names(a) || (k == c.name && k != "data")
    ensures k in Names(a + [c]) ==>
      && KindOf(a + [c], k) == (if k == c.name then c.kind else KindOf(a, k))
      && DefaultOf(a + [c], k) ==
         if k == c.name then (if c.default.Some? then c.default.value else Null) else DefaultOf(a, k)
  {
    assert (a + [c])[..|a|] == a;
  }

  /** With them a collection is such a layout, although no document has their fields;
      and so it is with any further columns that have other names and keep their defaults. */
  lemma {:induction false} SystemIsLayout(now: string, go: Library)
    requires go.time(now) == None || go.time(now) == Some(now)
    ensures IsLayout(Layout(true, SystemColumns(Str(now)), go))
    ensures Defaulted(Layout(true, SystemColumns(Str(now)), go)) == {"created_at", "updated_at"}
  {
    hide Names, KindOf, DefaultOf;
    var cs := SystemColumns(Str(now));
    assert cs[..0] + [cs[0]] == cs[..1] && cs[..1] + [cs[1]] == cs[..2] && cs[..2] + [cs[2]] == cs[..3] &&
      cs[..3] + [cs[3]] == cs;
    NoNames();
    forall k
      ensures k in Names(cs) <==> k == "id" || k == "created_at" || k == "updated_at"
      ensures k in Names(cs) ==>
        && KindOf(cs, k) == (if k == "id" then TextColumn else DateColumn)
        && DefaultOf(cs, k) == (if k == "id" then Null else Str(now))
    {
      NamesConcat(cs[..0], cs[0], k);
      NamesConcat(cs[..1], cs[1], k);
      NamesConcat(cs[..2], cs[2], k);
      NamesConcat(cs[..3], cs[3], k);
    }
    assert cs[3] in cs && cs[3].name == "data";
  }

  lemma {:induction false} NoNames()
    ensures Names([]) == {}
  {
  }

  lemma {:induction false} MoreColumns(l: Layout, c: Column)
    requires IsLayout(l) && c.name != "id" && c.name != "updatedAt" && c.name != "data"
    requires c.default.Some? ==> KeptBy(c.default.value, c.kind, l.go)
    ensures IsLayout(l.(columns := l.columns + [c]))
  {
    hide Names, KindOf, DefaultOf, KeptBy;
    forall k
      ensures k in Names(l.columns + [c]) <==> k in Names(l.columns) || (k == c.name && k != "data")
      ensures k in Names(l.columns + [c]) ==>
        && KindOf(l.columns + [c], k) == (if k == c.name then c.kind else KindOf(l.columns, k))
        && DefaultOf(l.columns + [c], k) ==
           if k == c.name then (if c.default.Some? then c.default.value else Null) else DefaultOf(l.columns, k)
    {
      NamesConcat(l.columns, c, k);
    }
    var d :| d in l.columns && d.name == "data";
    assert d in l.columns + [c];
  }
}
