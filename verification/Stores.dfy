/** The JSON store and the column store over their tables, and that the second
    behaves as the first. */
module Stores {
  import opened Values
  import opened Sql
  import opened Truth
  import opened Updates
  import opened QueryBuilder
  import opened Builders
  import opened Layouts
  import opened Ordering

  datatype Kind = Whole | Columnar(l: Layout)

  /** The database: does a row satisfy a WHERE text with these arguments? */
  type Engine = (seq<Token>, seq<Value>, Row) -> bool

  ghost predicate Runs(engine: Engine, db: Database) {
    forall text, args, row :: engine(text, args, row) <==> Where(text, args, row, db) == Some(T)
  }

  function QueryColumns(kind: Kind): set<string> {
    if kind.Whole? then {} else Names(kind.l.columns)
  }

  function Read(kind: Kind, row: Row): Document {
    if kind.Whole? then row.data else Scan(row, AllNames(kind.l.columns))
  }

  function NewRow(kind: Kind, doc: Document): Row {
    if kind.Whole? then Layouts.Whole(doc) else Inserted(kind.l, doc)
  }

  function Write(kind: Kind, row: Row, doc: Document): Row {
    if kind.Whole? then Row(row.cells, EncodeDoc(doc)) else Rewritten(kind.l, row, doc)
  }

  function Id(row: Row): Value {
    Get(row.cells, "id")
  }

  /** A row this kind of store holds: its column `id` is its document's field. */
  predicate Fits(kind: Kind, row: Row) {
    if kind.Whole? then Get(row.data, "id") == Id(row) && Encode(Id(row)) == Id(row)
    else WellStored(kind.l, row) && HasData(kind.l.columns) && "id" in Names(kind.l.columns)
  }

  lemma {:induction false} IdReads(kind: Kind, row: Row)
    requires Fits(kind, row)
    ensures Get(Read(kind, row), "id") == Id(row)
  {
    if kind.Columnar? {
      ScanAt(kind.l, row, AllNames(kind.l.columns), "id");
      assert Get(Read(kind, row), "id") == if Lookup(Read(kind, row), "id").Some?
        then Lookup(Read(kind, row), "id").value else Null;
    }
  }

  predicate UniqueIds(rows: seq<Row>) {
    forall i, j | 0 <= i < j < |rows| && Id(rows[i]) == Id(rows[j]) :: Id(rows[i]).Null?
  }

  // ---- Selecting rows

  ghost predicate Picks(cs: seq<Condition>, columns: set<string>, fmt: Format, row: Row, db: Database) {
    forall c | Survives(cs, c) :: Verdict(c, columns, fmt, row, db) == T
  }

  /** The rows a query selects, by their positions in the table. */
  ghost function Hits(cs: seq<Condition>, columns: set<string>, fmt: Format, rows: seq<Row>,
                      db: Database): (hits: seq<nat>)
    ensures forall j | 0 <= j < |hits| :: hits[j] < |rows|
    ensures forall i, j | 0 <= i < j < |hits| :: hits[i] < hits[j]
  {
    if rows == [] then []
    else
      var n := |rows| - 1;
      var hits := Hits(cs, columns, fmt, rows[..n], db);
      if Picks(cs, columns, fmt, rows[n], db) then hits + [n] else hits
  }

  lemma {:induction false} HitsPick(cs: seq<Condition>, columns: set<string>, fmt: Format, rows: seq<Row>,
                                    db: Database, i: nat)
    requires i < |rows|
    ensures i in Hits(cs, columns, fmt, rows, db) <==> Picks(cs, columns, fmt, rows[i], db)
    decreases rows
  {
    hide Picks;
    var n := |rows| - 1;
    var hits := Hits(cs, columns, fmt, rows[..n], db);
    if i < n {
      HitsPick(cs, columns, fmt, rows[..n], db, i);
    } else {
      assert n !in hits;
    }
  }

  /** The SELECT both stores run, with the WHERE text of the builder pipeline. */
  method RunQuery(query: BaseQueryBuilder, columns: set<string>, fmt: Format, engine: Engine, rows: seq<Row>,
                  ghost db: Database)
    returns (hits: Option<seq<nat>>)
    requires Runs(engine, db)
    ensures hits.None? <==> SurvivorPanics(query.conditions)
    ensures hits.Some? ==> hits.value == Hits(query.conditions, columns, fmt, rows, db)
  {
    var r := BuildWhereClause(Base(query), columns, fmt);
    if r.Panic? {
      return None;
    }
    var found: seq<nat> := [];
    for i := 0 to |rows|
      invariant found == Hits(query.conditions, columns, fmt, rows[..i], db)
    {
      EnginePicks(query.conditions, r.text, r.args, columns, fmt, engine, rows[i], db);
      assert rows[..i + 1][..i] == rows[..i];
      if engine(r.text, r.args, rows[i]) {
        found := found + [i];
      }
    }
    assert rows[..|rows|] == rows;
    hits := Some(found);
  }

  lemma {:induction false} EnginePicks(cs: seq<Condition>, text: seq<Token>, args: seq<Value>, columns: set<string>,
                                       fmt: Format, engine: Engine, row: Row, db: Database)
    requires WhereConjoins(cs, text, args, columns, fmt) && Runs(engine, db)
    ensures engine(text, args, row) <==> Picks(cs, columns, fmt, row, db)
  {
    hide Where, Verdict, Survives;
    assert engine(text, args, row) <==> Where(text, args, row, db) == Some(T);
  }

  predicate InTable(answer: seq<nat>, rows: seq<Row>) {
    forall j | 0 <= j < |answer| :: answer[j] < |rows|
  }

  /** LIMIT and OFFSET on the rows selected. */
  function Window(hits: seq<nat>, limit: Option<nat>, skip: Option<nat>): (window: seq<nat>)
    ensures var s := if skip.Some? then skip.value else 0;
      var left := if s <= |hits| then |hits| - s else 0;
      && |window| == (if limit.Some? && limit.value < left then limit.value else left)
      && forall j | 0 <= j < |window| :: window[j] == hits[s + j]
    ensures forall j | 0 <= j < |window| :: window[j] in hits
  {
    var rest := if skip.None? then hits else if skip.value <= |hits| then hits[skip.value..] else [];
    if limit.Some? && limit.value <= |rest| then rest[..limit.value] else rest
  }

  /** The pages of one size, from the row `skip` on. */
  function Pages(hits: seq<nat>, size: nat, skip: nat): seq<nat>
    requires size > 0
    decreases |hits| - skip
  {
    if skip >= |hits| then [] else Window(hits, Some(size), Some(skip)) + Pages(hits, size, skip + size)
  }

  /** One after the other, the pages are all that was selected. */
  lemma {:induction false} PagesAreAll(hits: seq<nat>, size: nat, skip: nat)
    requires size > 0 && skip <= |hits|
    ensures Pages(hits, size, skip) == hits[skip..]
    decreases |hits| - skip
  {
    if skip < |hits| {
      var page := Window(hits, Some(size), Some(skip));
      var next := if skip + size <= |hits| then skip + size else |hits|;
      assert page == hits[skip..next];
      if skip + size <= |hits| {
        PagesAreAll(hits, size, skip + size);
      }
      assert hits[skip..] == hits[skip..next] + hits[next..];
    }
  }

  // ---- Reading rows

  ghost predicate SelectedBy(kind: Kind, fields: map<string, int>, selected: seq<string>) {
    kind.Columnar? ==>
      if fields == map[] then selected == AllNames(kind.l.columns) else SelectedFor(kind.l, fields, selected)
  }

  /** A new row reads as the JSON of its document, and has its identifier. */
  lemma {:induction false} NewRowReads(doc: Document)
    ensures Read(Kind.Whole, NewRow(Kind.Whole, doc)) == EncodeDoc(doc)
    ensures "id" in doc ==> Id(NewRow(Kind.Whole, doc)) == Encode(doc["id"])
  {
  }

  /** Each field of a row as Find returns it: with some field included, the included
      ones and the identifier, and otherwise all that are not excluded. */
  lemma {:induction false} ResultReads(kind: Kind, selected: seq<string>, fields: map<string, int>, row: Row, k: string)
    requires Fits(kind, row) && SelectedBy(kind, fields, selected)
    requires kind.Columnar? ==> !HidesOverflow(kind.l, fields)
    ensures var kept :=
        if exists f | f in fields :: fields[f] == 1
        then (k in fields && fields[k] == 1) || (k == "id" && "id" !in fields)
        else !(k in fields && fields[k] == 0);
      Lookup(Result(kind, selected, fields, row), k) == if kept then Lookup(Read(kind, row), k) else None
  {
    hide Scan, AllNames, SelectedFor, HidesOverflow, Names;
    ProjectAt(Read(kind, row), fields, k);
    if kind.Columnar? && fields != map[] {
      PushDownInvisible(kind.l, fields, selected, row);
    }
  }

  /** One row as Find returns it. */
  function Result(kind: Kind, selected: seq<string>, fields: map<string, int>, row: Row): Document {
    var doc := if kind.Whole? then row.data else Scan(row, selected);
    if fields == map[] then doc else Project(doc, fields)
  }

  function Results(kind: Kind, selected: seq<string>, fields: map<string, int>, rows: seq<Row>,
                   hits: seq<nat>): seq<Document>
    requires forall j | 0 <= j < |hits| :: hits[j] < |rows|
  {
    seq(|hits|, j requires 0 <= j < |hits| => Result(kind, selected, fields, rows[hits[j]]))
  }

  /** From the row after those skipped on, as many documents as there are or as the limit allows. */
  ghost predicate IsPage(kind: Kind, selected: seq<string>, fields: map<string, int>, rows: seq<Row>,
                         answer: seq<nat>, limit: Option<nat>, skip: Option<nat>, docs: seq<Document>)
    requires InTable(answer, rows)
  {
    var s := if skip.Some? then skip.value else 0;
    var left := if s <= |answer| then |answer| - s else 0;
    && |docs| == (if limit.Some? && limit.value < left then limit.value else left)
    && forall j | 0 <= j < |docs| :: docs[j] == Result(kind, selected, fields, rows[answer[s + j]])
  }

  lemma {:induction false} ResultsPage(kind: Kind, selected: seq<string>, fields: map<string, int>, rows: seq<Row>,
                                       answer: seq<nat>, limit: Option<nat>, skip: Option<nat>)
    requires InTable(answer, rows)
    ensures IsPage(kind, selected, fields, rows, answer, limit, skip,
                   Results(kind, selected, fields, rows, Window(answer, limit, skip)))
  {
    hide Result;
  }

  // ---- Updating rows

  ghost predicate LeavesId(u: map<string, Value>) {
    forall s | InUpdate(u, s) :: s.field != "id"
  }

  /** `UPDATE ... WHERE id = ?`; a NULL equals nothing. */
  function WriteWhere(kind: Kind, rows: seq<Row>, doc: Document): seq<Row> {
    seq(|rows|, i requires 0 <= i < |rows| =>
      if Id(rows[i]) == Get(doc, "id") && !Id(rows[i]).Null? then Write(kind, rows[i], doc) else rows[i])
  }

  function Stamped(steps: seq<Step>, doc: Document, now: Value): Document {
    Run(Store, steps, doc)["updatedAt" := now]
  }

  /** One document's row after its update. */
  function Written(kind: Kind, row: Row, doc: Document): Row {
    if EncodeDoc(Read(kind, row)) == EncodeDoc(doc) || Id(row).Null? then row else Write(kind, row, doc)
  }

  ghost predicate After(kind: Kind, u: map<string, Value>, now: Value, before: Row, after: Row) {
    exists steps | Schedules(u, steps) :: after == Written(kind, before, Stamped(steps, Read(kind, before), now))
  }

  /** The chosen rows are updated, each in its own iteration order, no other changes. */
  ghost predicate Updated(kind: Kind, u: map<string, Value>, now: Value, before: seq<Row>, after: seq<Row>,
                          chosen: seq<nat>)
  {
    |after| == |before| &&
    forall i | 0 <= i < |before| ::
      if i in chosen then After(kind, u, now, before[i], after[i]) else after[i] == before[i]
  }

  /** One document's update by these steps on the whole table, whatever rows have its identifier. */
  ghost predicate Applies(kind: Kind, u: map<string, Value>, now: Value, doc: Document, before: seq<Row>,
                          after: seq<Row>, steps: seq<Step>, changed: bool)
  {
    var next := Stamped(steps, doc, now);
    && Schedules(u, steps) && changed == (EncodeDoc(doc) != EncodeDoc(next))
    && after == if changed then WriteWhere(kind, before, next) else before
  }

  ghost predicate AppliesOne(kind: Kind, u: map<string, Value>, now: Value, doc: Document, before: seq<Row>,
                             after: seq<Row>, changed: bool)
  {
    exists steps :: Applies(kind, u, now, doc, before, after, steps, changed)
  }

  ghost predicate IsChain(kind: Kind, u: map<string, Value>, now: Value, docs: seq<Document>, tables: seq<seq<Row>>,
                          changed: seq<bool>)
  {
    |tables| == |docs| + 1 && |changed| == |docs| &&
    forall i | 0 <= i < |docs| :: AppliesOne(kind, u, now, docs[i], tables[i], tables[i + 1], changed[i])
  }

  function Trues(bs: seq<bool>): nat {
    if bs == [] then 0 else Trues(bs[..|bs| - 1]) + if bs[|bs| - 1] then 1 else 0
  }

  /** The documents' updates one after the other, each in its own iteration order. The
      JSON store counts those that change the document, the column store all. */
  ghost predicate AppliesAll(kind: Kind, u: map<string, Value>, now: Value, docs: seq<Document>, before: seq<Row>,
                             after: seq<Row>, count: nat)
  {
    exists tables, changed | IsChain(kind, u, now, docs, tables, changed) ::
      && tables[0] == before && tables[|docs|] == after
      && count == if kind.Columnar? then |docs| else Trues(changed)
  }

  lemma {:induction false} AppliesNone(kind: Kind, u: map<string, Value>, now: Value, rows: seq<Row>)
    ensures AppliesAll(kind, u, now, [], rows, rows, 0)
  {
    assert IsChain(kind, u, now, [], [rows], []);
  }

  lemma {:induction false} AppliesMore(kind: Kind, u: map<string, Value>, now: Value, docs: seq<Document>,
                                       doc: Document, before: seq<Row>, middle: seq<Row>, after: seq<Row>,
                                       count: nat, more: bool)
    requires AppliesAll(kind, u, now, docs, before, middle, count)
    requires AppliesOne(kind, u, now, doc, middle, after, more)
    ensures AppliesAll(kind, u, now, docs + [doc], before, after, if more || kind.Columnar? then count + 1 else count)
  {
    hide AppliesOne;
    var tables, changed :| IsChain(kind, u, now, docs, tables, changed) && tables[0] == before &&
      tables[|docs|] == middle && count == if kind.Columnar? then |docs| else Trues(changed);
    var all, flags := tables + [after], changed + [more];
    assert flags[..|changed|] == changed;
    forall i | 0 <= i < |docs| + 1
      ensures AppliesOne(kind, u, now, (docs + [doc])[i], all[i], all[i + 1], flags[i])
    {
    }
    assert IsChain(kind, u, now, docs + [doc], all, flags);
  }

  lemma {:induction false} WrittenId(kind: Kind, row: Row, doc: Document)
    ensures Id(Written(kind, row, doc)) == Id(row)
  {
  }

  lemma {:induction false} StampedId(u: map<string, Value>, steps: seq<Step>, doc: Document, now: Value)
    requires Schedules(u, steps) && LeavesId(u)
    ensures Get(Stamped(steps, doc, now), "id") == Get(doc, "id")
  {
    assert Lookup(Run(Store, steps, doc), "id") == Lookup(doc, "id") by {
      UnnamedKept(Store, steps, doc, "id");
    }
  }

  lemma {:induction false} IdKept(kind: Kind, u: map<string, Value>, now: Value, before: seq<Row>, rows: seq<Row>,
                                  chosen: seq<nat>, i: nat)
    requires Updated(kind, u, now, before, rows, chosen) && i < |before|
    ensures Id(rows[i]) == Id(before[i])
  {
    hide Written, Schedules, Stamped, Read;
    if i in chosen {
      var own :| Schedules(u, own) && rows[i] == Written(kind, before[i], Stamped(own, Read(kind, before[i]), now));
      WrittenId(kind, before[i], Stamped(own, Read(kind, before[i]), now));
    }
  }

  lemma {:induction false} UpdateOneMore(kind: Kind, u: map<string, Value>, now: Value, before: seq<Row>,
                                         rows: seq<Row>, chosen: seq<nat>, k: nat, steps: seq<Step>)
    requires UniqueIds(before) && LeavesId(u) && Schedules(u, steps)
    requires k < |before| && k !in chosen && Fits(kind, before[k])
    requires Updated(kind, u, now, before, rows, chosen)
    ensures var doc := Stamped(steps, Read(kind, before[k]), now);
      Updated(kind, u, now, before,
              if EncodeDoc(Read(kind, before[k])) == EncodeDoc(doc) then rows
              else WriteWhere(kind, rows, doc), chosen + [k])
    ensures var doc := Stamped(steps, Read(kind, before[k]), now);
      var after := if EncodeDoc(Read(kind, before[k])) == EncodeDoc(doc) then rows else WriteWhere(kind, rows, doc);
      && after[k] == Written(kind, before[k], doc)
      && forall i | 0 <= i < |before| && i != k :: after[i] == rows[i]
  {
    hide Read, Written, Schedules, EncodeDoc, Stamped, Write;
    var doc := Stamped(steps, Read(kind, before[k]), now);
    var same := EncodeDoc(Read(kind, before[k])) == EncodeDoc(doc);
    var after := if same then rows else WriteWhere(kind, rows, doc);
    IdReads(kind, before[k]);
    StampedId(u, steps, Read(kind, before[k]), now);
    forall i | 0 <= i < |before|
      ensures if i in chosen + [k] then After(kind, u, now, before[i], after[i]) else after[i] == before[i]
      ensures if i == k then after[k] == Written(kind, before[k], doc) else after[i] == rows[i]
    {
      IdKept(kind, u, now, before, rows, chosen, i);
      if i == k {
        WrittenCases(kind, before[k], doc);
        assert after[k] == Written(kind, before[k], doc);
      } else {
        assert after[i] == rows[i] by {
          assert i < k ==> Id(before[i]) == Id(before[k]) ==> Id(before[i]).Null?;
          assert k < i ==> Id(before[k]) == Id(before[i]) ==> Id(before[k]).Null?;
        }
      }
    }
  }

  lemma {:induction false} WrittenCases(kind: Kind, row: Row, doc: Document)
    ensures Written(kind, row, doc) ==
            if EncodeDoc(Read(kind, row)) == EncodeDoc(doc) || Id(row).Null? then row else Write(kind, row, doc)
  {
  }

  lemma {:induction false} UpdatedNone(kind: Kind, u: map<string, Value>, now: Value, rows: seq<Row>)
    ensures Updated(kind, u, now, rows, rows, [])
  {
  }

  lemma {:induction false} WrittenFits(kind: Kind, row: Row, doc: Document)
    requires Fits(kind, row) && Get(doc, "id") == Id(row)
    ensures Fits(kind, Written(kind, row, doc))
  {
    if kind.Columnar? {
      RewrittenStored(kind.l, row, doc);
    } else {
      assert Get(EncodeDoc(doc), "id") == Encode(Get(doc, "id"));
    }
  }

  /** Updates that leave the identifier alone leave a sound table. */
  lemma {:induction false} UpdatedFits(kind: Kind, u: map<string, Value>, now: Value, before: seq<Row>,
                                       after: seq<Row>, chosen: seq<nat>)
    requires Updated(kind, u, now, before, after, chosen) && LeavesId(u) && UniqueIds(before)
    requires forall i | 0 <= i < |before| :: Fits(kind, before[i])
    ensures UniqueIds(after) && forall i | 0 <= i < |after| :: Fits(kind, after[i])
  {
    hide Fits, Written, Schedules, Stamped, Read, Id, LeavesId;
    forall i | 0 <= i < |after|
      ensures Id(after[i]) == Id(before[i]) && Fits(kind, after[i])
    {
      IdKept(kind, u, now, before, after, chosen, i);
      if i in chosen {
        var steps :| Schedules(u, steps) &&
          after[i] == Written(kind, before[i], Stamped(steps, Read(kind, before[i]), now));
        IdReads(kind, before[i]);
        StampedId(u, steps, Read(kind, before[i]), now);
        WrittenFits(kind, before[i], Stamped(steps, Read(kind, before[i]), now));
      }
    }
  }

  lemma {:induction false} ResultsOneMore(kind: Kind, selected: seq<string>, fields: map<string, int>, rows: seq<Row>,
                                          hits: seq<nat>, hit: nat)
    requires (forall j | 0 <= j < |hits| :: hits[j] < |rows|) && hit < |rows|
    ensures Results(kind, selected, fields, rows, hits + [hit]) ==
            Results(kind, selected, fields, rows, hits) + [Result(kind, selected, fields, rows[hit])]
  {
    hide Result;
  }

  /** A document became what the update is for, at this time and as its JSON. */
  ghost predicate Became(u: map<string, Value>, now: Value, before: Document, after: Document) {
    exists next :: Meets(Updates.Store, u, before, next) && EncodeDoc(after) == EncodeDoc(next["updatedAt" := now])
  }

  ghost predicate ChosenBecame(u: map<string, Value>, now: Value, before: seq<Row>, after: seq<Row>, chosen: seq<nat>) {
    && |after| == |before|
    && (forall i | 0 <= i < |before| && i !in chosen :: after[i] == before[i])
    && (forall i | 0 <= i < |before| && i in chosen && !Id(before[i]).Null? ::
          Became(u, now, before[i].data, after[i].data))
  }

  lemma {:induction false} EncodedAgain(doc: Document)
    ensures EncodeDoc(EncodeDoc(doc)) == EncodeDoc(doc)
  {
    forall k | k in doc
      ensures Encode(Encode(doc[k])) == Encode(doc[k])
    {
      EncodeTwice(doc[k]);
    }
  }

  /** In the JSON store the chosen documents become what the update is for. */
  lemma {:induction false} UpdatedBecame(u: map<string, Value>, now: Value, before: seq<Row>, after: seq<Row>,
                                         chosen: seq<nat>)
    requires Updated(Kind.Whole, u, now, before, after, chosen) && NamedOnce(u)
    ensures ChosenBecame(u, now, before, after, chosen)
  {
    hide Meets, Schedules, Run, NamedOnce, EncodeDoc;
    forall i | 0 <= i < |before| && i in chosen && !Id(before[i]).Null?
      ensures Became(u, now, before[i].data, after[i].data)
    {
      var steps :| Schedules(u, steps) &&
        after[i] == Written(Kind.Whole, before[i], Stamped(steps, Read(Kind.Whole, before[i]), now));
      UpdateMeets(Updates.Store, u, steps, before[i].data);
      EncodedAgain(Stamped(steps, before[i].data, now));
    }
  }

  // ---- What the operations do to a table

  datatype Op =
    | Insertion(document: Document, newId: Value, time: Value)
    | Change(cs: seq<Condition>, u: map<string, Value>, one: bool, now: Value)

  function Completed(document: Document, newId: Value, now: Value): (doc: Document)
    ensures forall k | k in document :: k in doc && doc[k] == document[k]
    ensures "id" in doc && ("id" !in document ==> doc["id"] == newId)
    ensures "createdAt" in doc && ("createdAt" !in document ==> doc["createdAt"] == now)
    ensures "updatedAt" in doc && ("updatedAt" !in document ==> doc["updatedAt"] == now)
    ensures forall k | k in doc :: k in document || k in {"id", "createdAt", "updatedAt"}
  {
    (map["id" := newId, "createdAt" := now, "updatedAt" := now]) + document
  }

  ghost predicate StepOf(kind: Kind, fmt: Format, db: Database, op: Op, before: seq<Row>, after: seq<Row>) {
    match op
    case Insertion(document, newId, time) =>
      var row := NewRow(kind, Completed(document, newId, time));
      after == if Free(before, row) then before + [row] else before
    case Change(cs, u, one, now) =>
      if SurvivorPanics(cs) then after == before
      else Updated(kind, u, now, before, after, Chosen(one, Hits(cs, QueryColumns(kind), fmt, before, db)))
  }

  predicate Free(rows: seq<Row>, row: Row) {
    Id(row).Null? || forall i | 0 <= i < |rows| :: Id(rows[i]) != Id(row)
  }

  function Chosen(one: bool, hits: seq<nat>): (chosen: seq<nat>)
    ensures chosen <= hits
    ensures one ==> |chosen| <= 1 && (chosen == [] <==> hits == [])
    ensures !one ==> chosen == hits
  {
    if one && |hits| > 1 then hits[..1] else hits
  }

  method Complete(document: Document, newId: Value, now: Value) returns (doc: Document)
    ensures doc == Completed(document, newId, now)
  {
    doc := document;
    if "id" !in doc {
      doc := doc["id" := newId];
    }
    if "createdAt" !in doc {
      doc := doc["createdAt" := now];
    }
    if "updatedAt" !in doc {
      doc := doc["updatedAt" := now];
    }
  }

  lemma {:induction false} StillUnique(rows: seq<Row>, row: Row)
    requires UniqueIds(rows) && Free(rows, row)
    ensures UniqueIds(rows + [row])
  {
  }

  function ChangedRows(before: seq<Row>, after: seq<Row>): set<nat>
    requires |before| == |after|
  {
    set i: nat | i < |before| && after[i] != before[i]
  }

  /** In the JSON store a row with an identifier changes exactly when its document does. */
  lemma {:induction false} WrittenChanges(row: Row, doc: Document)
    requires !Id(row).Null?
    ensures Written(Kind.Whole, row, doc) != row <==> EncodeDoc(row.data) != EncodeDoc(doc)
  {
    if row.data == EncodeDoc(doc) {
      EncodedAgain(doc);
    }
  }

  lemma {:induction false} ChangedOneMore(before: seq<Row>, was: seq<Row>, rows: seq<Row>, k: nat)
    requires |before| == |was| == |rows| && k < |rows| && was[k] == before[k]
    requires forall i | 0 <= i < |rows| && i != k :: rows[i] == was[i]
    ensures ChangedRows(before, rows) ==
            if rows[k] != before[k] then ChangedRows(before, was) + {k} else ChangedRows(before, was)
    ensures k !in ChangedRows(before, was)
  {
  }

  /** What the loop over the documents has done to the table. */
  ghost predicate Progress(kind: Kind, u: map<string, Value>, now: Value, before: seq<Row>, rows: seq<Row>,
                           chosen: seq<nat>, j: nat, count: nat)
  {
    && j <= |chosen| && (forall i | 0 <= i < |chosen| :: chosen[i] < |before|)
    && AppliesAll(kind, u, now, Documents(kind, before, chosen)[..j], before, rows, count)
    && (LeavesId(u) ==>
          && Updated(kind, u, now, before, rows, chosen[..j])
          && (CountsRows(kind, before, chosen) ==> count == |ChangedRows(before, rows)|))
  }

  /** Different rows of a sound table, in order. */
  ghost predicate Choosable(kind: Kind, before: seq<Row>, chosen: seq<nat>) {
    && UniqueIds(before)
    && (forall i | 0 <= i < |chosen| :: chosen[i] < |before| && Fits(kind, before[chosen[i]]))
    && forall i, j | 0 <= i < j < |chosen| :: chosen[i] < chosen[j]
  }

  /** The JSON store, and every chosen document has an identifier. */
  ghost predicate CountsRows(kind: Kind, before: seq<Row>, chosen: seq<nat>)
    requires forall i | 0 <= i < |chosen| :: chosen[i] < |before|
  {
    kind.Whole? && forall i | 0 <= i < |chosen| :: !Id(before[chosen[i]]).Null?
  }

  lemma {:induction false} NoProgress(kind: Kind, u: map<string, Value>, now: Value, rows: seq<Row>, chosen: seq<nat>)
    requires forall i | 0 <= i < |chosen| :: chosen[i] < |rows|
    ensures Progress(kind, u, now, rows, rows, chosen, 0, 0)
  {
    assert ChangedRows(rows, rows) == {};
    AppliesNone(kind, u, now, rows);
    UpdatedNone(kind, u, now, rows);
  }

  lemma {:induction false} MoreProgress(kind: Kind, u: map<string, Value>, now: Value, before: seq<Row>, was: seq<Row>,
                                        rows: seq<Row>, chosen: seq<nat>, j: nat, steps: seq<Step>, count: nat,
                                        changed: bool)
    requires j < |chosen| && Progress(kind, u, now, before, was, chosen, j, count)
    requires Choosable(kind, before, chosen) && forall i | 0 <= i < |chosen| :: chosen[i] < |before|
    requires Applies(kind, u, now, Documents(kind, before, chosen)[j], was, rows, steps, changed)
    ensures Progress(kind, u, now, before, rows, chosen, j + 1, if changed || kind.Columnar? then count + 1 else count)
  {
    hide WriteWhere, Stamped, Read, EncodeDoc, Schedules, Fits, UniqueIds, LeavesId, AppliesAll, AppliesOne, After,
      Written, ChangedRows, Id;
    var docs, k := Documents(kind, before, chosen), chosen[j];
    assert docs[j] == Read(kind, before[k]);
    assert docs[..j + 1] == docs[..j] + [docs[j]];
    AppliesSome(kind, u, now, docs[j], was, rows, steps, changed);
    AppliesMore(kind, u, now, docs[..j], docs[j], before, was, rows, count, changed);
    if LeavesId(u) {
      assert k !in chosen[..j];
      UpdateOneMore(kind, u, now, before, was, chosen[..j], k, steps);
      assert chosen[..j + 1] == chosen[..j] + [k];
      ChangedOneMore(before, was, rows, k);
      if CountsRows(kind, before, chosen) {
        WholeReads(before[k]);
        WrittenChanges(before[k], Stamped(steps, Read(kind, before[k]), now));
      }
    }
  }

  lemma {:induction false} AppliesSome(kind: Kind, u: map<string, Value>, now: Value, doc: Document, before: seq<Row>,
                                       after: seq<Row>, steps: seq<Step>, changed: bool)
    requires Applies(kind, u, now, doc, before, after, steps, changed)
    ensures AppliesOne(kind, u, now, doc, before, after, changed)
  {
  }

  lemma {:induction false} WholeReads(row: Row)
    ensures Read(Kind.Whole, row) == row.data
  {
  }

  /** What an update of the chosen rows does, and what it counts. */
  ghost predicate Performs(kind: Kind, u: map<string, Value>, now: Value, before: seq<Row>, after: seq<Row>,
                           chosen: seq<nat>, count: nat)
  {
    && InTable(chosen, before)
    && AppliesAll(kind, u, now, Documents(kind, before, chosen), before, after, count)
    && (LeavesId(u) ==>
          && Updated(kind, u, now, before, after, chosen)
          && (CountsRows(kind, before, chosen) ==> count == |ChangedRows(before, after)|)
          && (kind.Whole? && NamedOnce(u) ==> ChosenBecame(u, now, before, after, chosen)))
  }

  lemma {:induction false} AllProgress(kind: Kind, u: map<string, Value>, now: Value, before: seq<Row>,
                                       rows: seq<Row>, chosen: seq<nat>, count: nat)
    requires Progress(kind, u, now, before, rows, chosen, |chosen|, count)
    ensures Performs(kind, u, now, before, rows, chosen, count)
  {
    hide AppliesAll, After, NamedOnce, ChosenBecame;
    var docs := Documents(kind, before, chosen);
    assert docs[..|chosen|] == docs && chosen[..|chosen|] == chosen;
    if LeavesId(u) && kind.Whole? && NamedOnce(u) {
      UpdatedBecame(u, now, before, rows, chosen);
    }
  }

  lemma {:induction false} PerformedFits(kind: Kind, u: map<string, Value>, now: Value, before: seq<Row>,
                                         after: seq<Row>, chosen: seq<nat>, count: nat)
    requires Performs(kind, u, now, before, after, chosen, count) && LeavesId(u) && UniqueIds(before)
    requires forall i | 0 <= i < |before| :: Fits(kind, before[i])
    ensures UniqueIds(after) && forall i | 0 <= i < |after| :: Fits(kind, after[i])
    ensures Updated(kind, u, now, before, after, chosen)
  {
    hide AppliesAll, After, NamedOnce, ChosenBecame, LeavesId, UniqueIds, Fits, Documents;
    UpdatedFits(kind, u, now, before, after, chosen);
  }

  datatype FindResult = Found(docs: seq<Document>) | Panicked | SyntaxError

  class Store {
    const kind: Kind
    const fmt: Format
    const engine: Engine
    const order: Order
    ghost const db: Database
    var rows: seq<Row>

    ghost predicate Valid()
      reads this
    {
      && Runs(engine, db) && IsOrder(order) && IsKind(kind)
      && UniqueIds(rows) && (forall i | 0 <= i < |rows| :: Fits(kind, rows[i]))
    }

    constructor (kind: Kind, fmt: Format, engine: Engine, order: Order, ghost db: Database)
      requires Runs(engine, db) && IsOrder(order) && IsKind(kind)
      ensures Valid() && rows == [] && this.kind == kind && this.fmt == fmt && this.db == db
    {
      this.kind := kind;
      this.fmt := fmt;
      this.engine := engine;
      this.order := order;
      this.db := db;
      rows := [];
    }

    /** Insert; the primary key refuses an identifier that is taken. */
    method Insert(document: Document, newId: Value, now: Value) returns (doc: Document, ok: bool)
      requires Valid()
      modifies this
      ensures Valid() && doc == Completed(document, newId, now)
      ensures var row := NewRow(kind, doc);
        && (ok <==> Id(row).Null? || forall i | 0 <= i < |old(rows)| :: Id(old(rows)[i]) != Id(row))
        && rows == if ok then old(rows) + [row] else old(rows)
      ensures StepOf(kind, fmt, db, Insertion(document, newId, now), old(rows), rows)
    {
      doc := Complete(document, newId, now);
      var row := BuildRow(doc);
      NewRowFits(kind, doc);
      hide NewRow, Fits, Completed, MakeRow, Runs, UniqueIds, Free;
      ok := Free(rows, row);
      if ok {
        StillUnique(rows, row);
        rows := rows + [row];
      }
    }

    method BuildRow(doc: Document) returns (row: Row)
      ensures row == NewRow(kind, doc)
    {
      if kind.Columnar? {
        var columnValues, jsonData := SeparateData(kind.l, doc);
        row := MakeRow(kind.l, columnValues, jsonData);
      } else {
        row := Layouts.Whole(doc);
      }
    }

    /** An OFFSET without a LIMIT is no SQL. */
    method Find(query: BaseQueryBuilder, fields: map<string, int>, sort: map<string, int>, limit: Option<nat>,
                skip: Option<nat>)
      returns (r: FindResult)
      requires Valid()
      ensures r.Panicked? <==> SurvivorPanics(query.conditions)
      ensures r.SyntaxError? <==> !SurvivorPanics(query.conditions) && skip.Some? && limit.None?
      ensures r.Found? ==>
        var hits := Hits(query.conditions, QueryColumns(kind), fmt, rows, db);
        exists selected, answer | SelectedBy(kind, fields, selected) && InTable(answer, rows) &&
                                  Answers(answer, hits, sort, rows, QueryColumns(kind), order) ::
          IsPage(kind, selected, fields, rows, answer, limit, skip, r.docs)
    {
      var selected := Selection(fields);
      var hits := RunQuery(query, QueryColumns(kind), fmt, engine, rows, db);
      if hits.None? {
        return Panicked;
      }
      if skip.Some? && limit.None? {
        return SyntaxError;
      }
      var answer := OrderBy(hits.value, sort, rows, QueryColumns(kind), order);
      assert InTable(answer, rows);
      hide Answers, Results, Window, SelectedBy, IsPage;
      ResultsPage(kind, selected, fields, rows, answer, limit, skip);
      var docs := ReadRows(selected, fields, Window(answer, limit, skip));
      r := Found(docs);
    }

    method Selection(fields: map<string, int>) returns (selected: seq<string>)
      ensures SelectedBy(kind, fields, selected)
    {
      selected := [];
      if kind.Columnar? {
        selected := AllNames(kind.l.columns);
        if fields != map[] {
          selected := BuildSelectClause(kind.l, fields);
        }
      }
    }

    /** The rows of the database's answer, scanned and projected. */
    method ReadRows(selected: seq<string>, fields: map<string, int>, hits: seq<nat>) returns (results: seq<Document>)
      requires forall j | 0 <= j < |hits| :: hits[j] < |rows|
      ensures results == Results(kind, selected, fields, rows, hits)
    {
      hide Results, Scan, Project;
      results := [];
      NoResults(kind, selected, fields, rows);
      for j := 0 to |hits|
        invariant results == Results(kind, selected, fields, rows, hits[..j])
      {
        var doc := rows[hits[j]].data;
        if kind.Columnar? {
          doc := ScanRow(rows[hits[j]], selected);
        }
        if fields != map[] {
          doc := ApplyFieldProjection(doc, fields);
        }
        assert hits[..j + 1] == hits[..j] + [hits[j]];
        ResultsOneMore(kind, selected, fields, rows, hits[..j], hits[j]);
        results := results + [doc];
      }
      assert hits[..|hits|] == hits;
    }

    /** performUpdate: the documents found, or the first of them, one at a time. */
    method PerformUpdate(query: BaseQueryBuilder, u: map<string, Value>, one: bool, now: Value)
      returns (modified: Option<nat>)
      requires Valid()
      modifies this
      ensures modified.None? <==> SurvivorPanics(old(query.conditions))
      ensures modified.None? ==> rows == old(rows)
      ensures modified.Some? ==>
        Performs(kind, u, now, old(rows), rows,
                 Chosen(one, Hits(old(query.conditions), QueryColumns(kind), fmt, old(rows), db)), modified.value)
      ensures LeavesId(u) ==>
        Valid() && StepOf(kind, fmt, db, Change(old(query.conditions), u, one, now), old(rows), rows)
      ensures modified == Some(0) ==> rows == old(rows)
    {
      var hits := RunQuery(query, QueryColumns(kind), fmt, engine, rows, db);
      if hits.None? {
        return None;
      }
      var chosen := Chosen(one, hits.value);
      ghost var before := rows;
      assert forall j | 0 <= j < |chosen| :: chosen[j] == hits.value[j];
      assert Choosable(kind, rows, chosen);
      hide Hits, Updated, Read, Fits, UniqueIds, Runs, LeavesId, SurvivorPanics, Choosable, Progress, Performs;
      var count := UpdateAll(chosen, u, now);
      AllProgress(kind, u, now, before, rows, chosen, count);
      if LeavesId(u) {
        PerformedFits(kind, u, now, before, rows, chosen, count);
      }
      modified := Some(count);
    }

    method UpdateAll(chosen: seq<nat>, u: map<string, Value>, now: Value) returns (count: nat)
      requires Choosable(kind, rows, chosen) && forall j | 0 <= j < |chosen| :: chosen[j] < |rows|
      modifies this
      ensures Progress(kind, u, now, old(rows), rows, chosen, |chosen|, count)
      ensures count == 0 ==> rows == old(rows)
    {
      var existing := Documents(kind, rows, chosen);
      ghost var before := rows;
      count := 0;
      NoProgress(kind, u, now, before, chosen);
      hide Progress, Applies, Choosable, Documents, Read;
      for j := 0 to |chosen|
        invariant Progress(kind, u, now, before, rows, chosen, j, count)
        invariant count == 0 ==> rows == before
      {
        ghost var was, counted := rows, count;
        var changed, steps := UpdateSingleDocument(existing[j], u, now);
        if changed || kind.Columnar? {
          count := count + 1;
        }
        MoreProgress(kind, u, now, before, was, rows, chosen, j, steps, counted, changed);
      }
    }

    method UpdateSingleDocument(original: Document, u: map<string, Value>, now: Value)
      returns (changed: bool, ghost steps: seq<Step>)
      modifies this
      ensures Applies(kind, u, now, original, old(rows), rows, steps, changed)
      ensures !changed ==> rows == old(rows)
    {
      hide EncodeDoc, WriteWhere, Schedules, Run;
      var doc := new Doc(original);
      steps := doc.ApplyUpdateOperations(Updates.Store, u);
      doc.fields := doc.fields["updatedAt" := now];
      assert doc.fields == Stamped(steps, original, now);
      changed := EncodeDoc(original) != EncodeDoc(doc.fields);
      if changed {
        rows := WriteWhere(kind, rows, doc.fields);
      }
    }
  }

  predicate IsKind(kind: Kind) {
    kind.Columnar? ==> kind.l.useColumns && HasData(kind.l.columns) && "id" in Names(kind.l.columns)
  }

  function Documents(kind: Kind, rows: seq<Row>, chosen: seq<nat>): (docs: seq<Document>)
    requires forall j | 0 <= j < |chosen| :: chosen[j] < |rows|
    ensures |docs| == |chosen| && forall j | 0 <= j < |chosen| :: docs[j] == Read(kind, rows[chosen[j]])
  {
    seq(|chosen|, j requires 0 <= j < |chosen| => Read(kind, rows[chosen[j]]))
  }

  lemma {:induction false} NoResults(kind: Kind, selected: seq<string>, fields: map<string, int>, rows: seq<Row>)
    ensures Results(kind, selected, fields, rows, []) == []
  {
  }

  lemma {:induction false} NewRowFits(kind: Kind, doc: Document)
    requires IsKind(kind) && "id" in doc
    ensures Fits(kind, NewRow(kind, doc))
  {
    EncodeTwice(doc["id"]);
  }
}
