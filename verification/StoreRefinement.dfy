/** The column store refines the JSON store, up to the columns SQL fills in: tables
    that hold the same documents answer queries alike, and inserts and updates keep
    them so, over any run of the two stores. */
module StoreRefinement {
  import opened Values
  import opened Sql
  import opened Truth
  import opened Updates
  import opened QueryBuilder
  import opened Builders
  import opened Layouts
  import opened Ordering
  import opened Stores
  import opened ColumnUpdates

  /** Two rows hold one document, up to the columns that have a default. */
  ghost predicate SameDoc(l: Layout, whole: Row, split: Row) {
    && Fits(Kind.Whole, whole) && Fits(Columnar(l), split) && Sound(l, split)
    && EncodeDoc(whole.data) == whole.data
    && forall k :: k !in Defaulted(l) ==> SameAt(l, whole, split, k)
  }

  ghost predicate SameAt(l: Layout, whole: Row, split: Row, k: string) {
    Lookup(Scan(split, AllNames(l.columns)), k) == Lookup(whole.data, k)
  }

  ghost predicate SameTable(l: Layout, whole: seq<Row>, split: seq<Row>) {
    |whole| == |split| && forall i | 0 <= i < |whole| :: SameDoc(l, whole[i], split[i])
  }

  lemma {:induction false} SameField(l: Layout, whole: Row, split: Row, k: string)
    requires SameDoc(l, whole, split) && k !in Defaulted(l)
    ensures Lookup(whole.data, k) ==
            if k in split.data then Some(split.data[k])
            else if k in split.cells && !split.cells[k].Null? then Some(split.cells[k])
            else None
  {
    assert SameAt(l, whole, split, k);
    ScanAt(l, split, AllNames(l.columns), k);
  }

  lemma {:induction false} SameId(l: Layout, whole: Row, split: Row)
    requires IsLayout(l) && SameDoc(l, whole, split)
    ensures Id(whole) == Id(split)
  {
    hide Scan, AllNames, Names, Sound;
    IdReads(Kind.Whole, whole);
    IdReads(Columnar(l), split);
    assert SameAt(l, whole, split, "id");
    GetIsLookup(whole.data, "id");
    GetIsLookup(Scan(split, AllNames(l.columns)), "id");
  }

  lemma {:induction false} GetIsLookup(doc: Document, k: string)
    ensures Get(doc, k) == if Lookup(doc, k).Some? then Lookup(doc, k).value else Null
  {
  }

  // ---- Queries

  /** No condition on a column with a dotted name, nor on one that SQL fills in. */
  ghost predicate Plain(l: Layout, cs: seq<Condition>) {
    forall c | Survives(cs, c) :: PlainField(l, c.field)
  }

  predicate PlainField(l: Layout, f: string) {
    Split(f)[0] !in Defaulted(l) && (f in Names(l.columns) ==> !Dotted(f))
  }

  lemma {:induction false} FetchAgrees(l: Layout, whole: Row, split: Row, f: string)
    requires SameDoc(l, whole, split) && PlainField(l, f)
    ensures Fetch(RefOf(Names(l.columns), f), split) == Fetch(RefOf({}, f), whole)
  {
    hide Scan, AllNames, Names, SameAt, KeptBy, Defaulted;
    SplitUndotted(f);
    var head := Split(f)[0];
    SameField(l, whole, split, head);
    if head in split.cells {
      assert KeptBy(split.cells[head], KindOf(l.columns, head), l.go);
      KeptScalar(split.cells[head], KindOf(l.columns, head), l.go);
    }
  }

  lemma {:induction false} PicksAgree(l: Layout, cs: seq<Condition>, fmt: Format, whole: Row, split: Row, db: Database)
    requires SameDoc(l, whole, split) && Plain(l, cs)
    ensures Picks(cs, Names(l.columns), fmt, split, db) == Picks(cs, {}, fmt, whole, db)
  {
    hide Survives, Verdict, SameDoc, Names, PlainField;
    forall c | Survives(cs, c)
      ensures Verdict(c, Names(l.columns), fmt, split, db) == Verdict(c, {}, fmt, whole, db)
    {
      FetchAgrees(l, whole, split, c.field);
      SameVerdict(c, Names(l.columns), split, {}, whole, fmt, db);
    }
  }

  /** Selection agrees for any document whose fields in the conditions are comparable,
      also for nulls, which the column store reads back as missing. */
  lemma {:induction false} NullsSelectAlike(l: Layout, cs: seq<Condition>, fmt: Format, doc: Document, db: Database)
    requires l.useColumns && IsGo(l.go)
    requires forall c | Survives(cs, c) ::
      FieldComparable(l, doc, Split(c.field)[0]) && (c.field in Names(l.columns) ==> !Dotted(c.field))
    ensures Picks(cs, Names(l.columns), fmt, Inserted(l, doc), db) == Picks(cs, {}, fmt, Layouts.Whole(doc), db)
  {
    hide Survives, Verdict, FieldComparable, Names, Inserted, Fetch;
    forall c | Survives(cs, c)
      ensures Verdict(c, Names(l.columns), fmt, Inserted(l, doc), db) == Verdict(c, {}, fmt, Layouts.Whole(doc), db)
    {
      SameFetch(l, doc, c.field);
      SameVerdict(c, Names(l.columns), Inserted(l, doc), {}, Layouts.Whole(doc), fmt, db);
    }
  }

  function NullAsMissing(v: Option<Value>): Option<Value> {
    if v == Some(Null) then None else v
  }

  /** Such a null is where updates part, also if nulls are read as missing fields: by an
      increment, a push or an addition, which leave it in the whole document and set the
      field read from the columns; and by no other step. */
  lemma {:induction false} NullsPartExactly(l: Layout, doc: Document, k: string, op: UpdateOp, v: Value)
    requires l.useColumns && HasData(l.columns) && k in Names(l.columns) && k in doc && doc[k].Null?
    ensures var split, whole := Scan(Inserted(l, doc), AllNames(l.columns)), Layouts.Whole(doc).data;
      NullAsMissing(Effect(Updates.Store, op, Lookup(split, k), v)) !=
      NullAsMissing(Effect(Updates.Store, op, Lookup(whole, k), v))
      <==> (op.Inc? && !v.Null?) || op.Push? || op.AddToSet?
  {
    SplitPartitions(l, doc);
    ScanAt(l, Inserted(l, doc), AllNames(l.columns), k);
  }

  lemma {:induction false} HitsAgree(l: Layout, cs: seq<Condition>, fmt: Format, whole: seq<Row>, split: seq<Row>,
                                     db: Database)
    requires SameTable(l, whole, split) && Plain(l, cs)
    ensures Hits(cs, Names(l.columns), fmt, split, db) == Hits(cs, {}, fmt, whole, db)
    decreases whole
  {
    hide SameDoc, Plain, Picks, Names;
    if whole != [] {
      var n := |whole| - 1;
      HitsAgree(l, cs, fmt, whole[..n], split[..n], db);
      PicksAgree(l, cs, fmt, whole[n], split[n], db);
    }
  }

  /** A document without the fields SQL fills in. */
  function Given(l: Layout, doc: Document): Document {
    doc - Defaulted(l)
  }

  function AllGiven(l: Layout, docs: seq<Document>): seq<Document> {
    seq(|docs|, i requires 0 <= i < |docs| => Given(l, docs[i]))
  }

  lemma {:induction false} ResultAgrees(l: Layout, selected: seq<string>, fields: map<string, int>, whole: Row,
                                        split: Row)
    requires SameDoc(l, whole, split) && SelectedBy(Columnar(l), fields, selected) && !HidesOverflow(l, fields)
    ensures Given(l, Result(Columnar(l), selected, fields, split)) == Given(l, Result(Kind.Whole, [], fields, whole))
  {
    hide Scan, AllNames, Project, Defaulted, Sound, SelectedFor, HidesOverflow, Names;
    if fields != map[] {
      PushDownInvisible(l, fields, selected, split);
    }
    var a, b := Result(Columnar(l), selected, fields, split), Result(Kind.Whole, [], fields, whole);
    forall k
      ensures Lookup(Given(l, a), k) == Lookup(Given(l, b), k)
    {
      ProjectAt(Scan(split, AllNames(l.columns)), fields, k);
      ProjectAt(whole.data, fields, k);
      assert k !in Defaulted(l) ==> SameAt(l, whole, split, k);
    }
    SameLookups(Given(l, a), Given(l, b));
  }

  lemma {:induction false} PrecedesAgrees(l: Layout, keys: seq<string>, sort: map<string, int>, whole: Row, split: Row,
                                          whole': Row, split': Row, order: Order)
    requires SameDoc(l, whole, split) && SameDoc(l, whole', split')
    requires forall k | k in keys :: k in sort && PlainField(l, k)
    ensures Precedes(keys, sort, split, split', Names(l.columns), order) ==
            Precedes(keys, sort, whole, whole', {}, order)
    decreases keys
  {
    hide SameDoc, PlainField, Names, Fetch, RefOf;
    if keys != [] {
      FetchAgrees(l, whole, split, keys[0]);
      FetchAgrees(l, whole', split', keys[0]);
      PrecedesAgrees(l, keys[1..], sort, whole, split, whole', split', order);
    }
  }

  /** Whatever answer the database may give for the one table it may give for the other. */
  lemma {:induction false} AnswersAgree(l: Layout, answer: seq<nat>, hits: seq<nat>, sort: map<string, int>,
                                        whole: seq<Row>, split: seq<Row>, order: Order)
    requires SameTable(l, whole, split) && InTable(answer, whole) && InTable(hits, whole)
    requires forall f | f in sort :: PlainField(l, f)
    ensures Answers(answer, hits, sort, split, Names(l.columns), order) <==>
            Answers(answer, hits, sort, whole, {}, order)
  {
    hide SameDoc, PlainField, Names, Precedes;
    forall keys | Enumerates(keys, sort)
      ensures IsSorted(answer, keys, sort, split, Names(l.columns), order) <==>
              IsSorted(answer, keys, sort, whole, {}, order)
    {
      forall i, j | 0 <= i < j < |answer|
        ensures Precedes(keys, sort, split[answer[i]], split[answer[j]], Names(l.columns), order) ==
                Precedes(keys, sort, whole[answer[i]], whole[answer[j]], {}, order)
      {
        PrecedesAgrees(l, keys, sort, whole[answer[i]], split[answer[i]], whole[answer[j]], split[answer[j]], order);
      }
    }
  }

  /** Tables with the same documents answer a query alike: every answer of the one, in
      an order it may have, is one of the other, with the same documents in that order
      but for the fields SQL fills in; sorted, limited, skipped and projected, as long
      as the projection does not hide the overflow. */
  lemma {:induction false} FindAgrees(l: Layout, cs: seq<Condition>, fields: map<string, int>, selected: seq<string>,
                                      fmt: Format, sort: map<string, int>, order: Order, answer: seq<nat>,
                                      limit: Option<nat>, skip: Option<nat>, whole: seq<Row>, split: seq<Row>,
                                      db: Database)
    requires SameTable(l, whole, split) && Plain(l, cs) && InTable(answer, whole)
    requires forall f | f in sort :: PlainField(l, f)
    requires SelectedBy(Columnar(l), fields, selected) && !HidesOverflow(l, fields)
    ensures Answers(answer, Hits(cs, Names(l.columns), fmt, split, db), sort, split, Names(l.columns), order) <==>
            Answers(answer, Hits(cs, {}, fmt, whole, db), sort, whole, {}, order)
    ensures AllGiven(l, Results(Columnar(l), selected, fields, split, Window(answer, limit, skip))) ==
            AllGiven(l, Results(Kind.Whole, [], fields, whole, Window(answer, limit, skip)))
  {
    hide SameDoc, Plain, PlainField, SelectedBy, HidesOverflow, Result, Hits, Names, Given, Window, Answers;
    HitsAgree(l, cs, fmt, whole, split, db);
    AnswersAgree(l, answer, Hits(cs, {}, fmt, whole, db), sort, whole, split, order);
    var hits := Window(answer, limit, skip);
    forall j | 0 <= j < |hits|
      ensures Given(l, Result(Columnar(l), selected, fields, split[hits[j]])) ==
              Given(l, Result(Kind.Whole, [], fields, whole[hits[j]]))
    {
      ResultAgrees(l, selected, fields, whole[hits[j]], split[hits[j]]);
    }
  }

  // ---- Inserts

  /** The fields that are columns are not null and kept by them. */
  predicate DocFits(l: Layout, doc: Document) {
    forall k | k in doc && k in Names(l.columns) :: !doc[k].Null? && KeptBy(doc[k], KindOf(l.columns, k), l.go)
  }

  lemma {:induction false} InsertedSound(l: Layout, doc: Document)
    requires IsLayout(l) && IsGo(l.go) && DocFits(l, doc)
    ensures Sound(l, Inserted(l, doc))
  {
    hide KeptBy, Convert, Encode;
    SplitPartitions(l, doc);
    EncodedAgain(Overflow(l, doc));
    var cells := Inserted(l, doc).cells;
    forall k | k in cells
      ensures KeptBy(cells[k], KindOf(l.columns, k), l.go)
    {
      if k in doc {
        ConvertKeeps(doc[k], KindOf(l.columns, k), l.go);
      } else if k !in Defaulted(l) {
        NullKept(KindOf(l.columns, k), l.go);
      }
    }
  }

  lemma {:induction false} NullKept(kind: ColumnType, go: Library)
    ensures KeptBy(Null, kind, go)
  {
  }

  lemma {:induction false} InsertedAt(l: Layout, doc: Document, k: string)
    requires IsLayout(l) && IsGo(l.go) && DocFits(l, doc) && k !in Defaulted(l)
    ensures Lookup(Scan(Inserted(l, doc), AllNames(l.columns)), k) == Lookup(EncodeDoc(doc), k)
  {
    hide KeptBy, Convert, Encode;
    SplitPartitions(l, doc);
    ScanAt(l, Inserted(l, doc), AllNames(l.columns), k);
    if k in doc && k in Names(l.columns) {
      ConvertKeeps(doc[k], KindOf(l.columns, k), l.go);
      KeptScalar(doc[k], KindOf(l.columns, k), l.go);
    }
  }

  /** Any document whose column fields fit is held alike by both new rows, whatever
      columns it leaves to SQL. */
  lemma {:induction false} InsertAgrees(l: Layout, doc: Document)
    requires IsLayout(l) && IsGo(l.go) && "id" in doc && DocFits(l, doc)
    ensures SameDoc(l, NewRow(Kind.Whole, doc), NewRow(Columnar(l), doc))
  {
    hide Scan, AllNames, Inserted, DocFits, IsGo;
    NewRowFits(Kind.Whole, doc);
    NewRowFits(Columnar(l), doc);
    InsertedSound(l, doc);
    EncodedAgain(doc);
    forall k | k !in Defaulted(l)
      ensures SameAt(l, Layouts.Whole(doc), Inserted(l, doc), k)
    {
      InsertedAt(l, doc, k);
    }
  }

  // ---- Updates

  /** The updates that keep the stores alike: no field named twice, the identifier left
      alone, and only steps that the columns of the chosen rows can take. */
  ghost predicate Suits(l: Layout, u: map<string, Value>, split: seq<Row>, chosen: seq<nat>) {
    && NamedOnce(u) && LeavesId(u)
    && forall i, s | 0 <= i < |split| && i in chosen && InUpdate(u, s) :: StepFits(l, split[i], s)
  }

  /** Static updates that name each field once suit every table of sound rows. */
  lemma {:induction false} StaticSuits(l: Layout, u: map<string, Value>, split: seq<Row>, chosen: seq<nat>)
    requires StaticUpdate(l, u) && NamedOnce(u) && forall i | 0 <= i < |split| :: Sound(l, split[i])
    ensures Suits(l, u, split, chosen)
  {
    hide StaticStep, StepFits, Sound, NamedOnce;
    StaticLeavesId(l, u);
    forall i, s | 0 <= i < |split| && i in chosen && InUpdate(u, s)
      ensures StepFits(l, split[i], s)
    {
      StaticFits(l, split[i], s);
    }
  }

  /** The updated documents agree wherever the documents did. */
  lemma {:induction false} StampedAgrees(u: map<string, Value>, s: seq<Step>, t: seq<Step>, a: Document, b: Document,
                                         now: Value, k: string)
    requires NamedOnce(u) && Schedules(u, s) && Schedules(u, t) && Lookup(a, k) == Lookup(b, k)
    ensures Lookup(Stamped(s, a, now), k) == Lookup(Stamped(t, b, now), k)
  {
    hide Run, Effect, NamedOnce, Schedules, InUpdate;
    StampedAt(s, a, now, k);
    StampedAt(t, b, now, k);
    UpdatedFields(Updates.Store, u, s, a, k);
    UpdatedFields(Updates.Store, u, t, b, k);
  }

  /** In the JSON store the row reads as the document's JSON after the write, or
      without one where nothing changed. */
  lemma {:induction false} WholeWrittenReads(row: Row, doc: Document)
    requires Fits(Kind.Whole, row) && EncodeDoc(row.data) == row.data && Get(doc, "id") == Id(row) && !Id(row).Null?
    ensures Written(Kind.Whole, row, doc).data == EncodeDoc(doc)
  {
  }

  lemma {:induction false} EncodedAt(doc: Document, k: string)
    ensures Lookup(EncodeDoc(doc), k) == if Lookup(doc, k).Some? then Some(Encode(Lookup(doc, k).value)) else None
  {
  }

  /** One document updated in both stores, each in its own iteration order. */
  lemma {:induction false} AfterAgrees(l: Layout, u: map<string, Value>, now: Value, whole: Row, split: Row,
                                       newWhole: Row, newSplit: Row)
    requires SameDoc(l, whole, split) && IsGo(l.go) && IsLayout(l) && NamedOnce(u) && LeavesId(u)
    requires forall s | InUpdate(u, s) :: StepFits(l, split, s)
    requires After(Kind.Whole, u, now, whole, newWhole) && After(Columnar(l), u, now, split, newSplit)
    ensures SameDoc(l, newWhole, newSplit)
  {
    hide Fits, Written, Scan, AllNames, Names, NamedOnce, LeavesId, Schedules, Run, Sound, StepFits, EncodeDoc,
      IsLayout, ColumnsFit, Stamped, IsGo, Defaulted;
    var s :| Schedules(u, s) && newWhole == Written(Kind.Whole, whole, Stamped(s, Read(Kind.Whole, whole), now));
    var t :| Schedules(u, t) && newSplit == Written(Columnar(l), split, Stamped(t, Read(Columnar(l), split), now));
    var a, b := Stamped(s, whole.data, now), Stamped(t, Scan(split, AllNames(l.columns)), now);
    SameId(l, whole, split);
    FittingColumnsFit(l, u, split, t, now);
    WrittenReads(l, split, b);
    IdReads(Kind.Whole, whole);
    IdReads(Columnar(l), split);
    StampedId(u, s, whole.data, now);
    StampedId(u, t, Scan(split, AllNames(l.columns)), now);
    WrittenFits(Kind.Whole, whole, a);
    WrittenFits(Columnar(l), split, b);
    if Id(split).Null? {
      NullIdUnwritten(Kind.Whole, whole, a);
      NullIdUnwritten(Columnar(l), split, b);
    } else {
      WholeWrittenReads(whole, a);
      EncodedAgain(a);
      forall k | k !in Defaulted(l)
        ensures SameAt(l, newWhole, newSplit, k)
      {
        assert SameAt(l, whole, split, k);
        StampedAgrees(u, s, t, whole.data, Scan(split, AllNames(l.columns)), now, k);
        EncodedAt(a, k);
        EncodedAt(b, k);
      }
    }
  }

  lemma {:induction false} NullIdUnwritten(kind: Kind, row: Row, doc: Document)
    requires Id(row).Null?
    ensures Written(kind, row, doc) == row
  {
  }

  /** Updating the chosen documents in both stores leaves the same documents in both. */
  lemma {:induction false} UpdateAgrees(l: Layout, u: map<string, Value>, now: Value, whole: seq<Row>, split: seq<Row>,
                                        newWhole: seq<Row>, newSplit: seq<Row>, chosen: seq<nat>)
    requires SameTable(l, whole, split) && IsGo(l.go) && IsLayout(l) && Suits(l, u, split, chosen)
    requires Updated(Kind.Whole, u, now, whole, newWhole, chosen) &&
      Updated(Columnar(l), u, now, split, newSplit, chosen)
    ensures SameTable(l, newWhole, newSplit)
  {
    hide SameDoc, After, StepFits, NamedOnce, LeavesId, IsLayout, IsGo;
    forall i | 0 <= i < |whole|
      ensures SameDoc(l, newWhole[i], newSplit[i])
    {
      if i in chosen {
        AfterAgrees(l, u, now, whole[i], split[i], newWhole[i], newSplit[i]);
      }
    }
  }

  // ---- Runs

  /** What an operation must suit in the state it finds. */
  ghost predicate OpSuits(l: Layout, fmt: Format, db: Database, op: Op, split: seq<Row>) {
    match op
    case Insertion(document, newId, time) => DocFits(l, Completed(document, newId, time))
    case Change(cs, u, one, now) =>
      Plain(l, cs) && Suits(l, u, split, Chosen(one, Hits(cs, Names(l.columns), fmt, split, db)))
  }

  /** The same said of the operation alone. */
  ghost predicate StaticOp(l: Layout, op: Op) {
    match op
    case Insertion(document, newId, time) => DocFits(l, Completed(document, newId, time))
    case Change(cs, u, one, now) => Plain(l, cs) && NamedOnce(u) && StaticUpdate(l, u)
  }

  lemma {:induction false} StaticOpSuits(l: Layout, fmt: Format, db: Database, op: Op, whole: seq<Row>, split: seq<Row>)
    requires StaticOp(l, op) && SameTable(l, whole, split)
    ensures OpSuits(l, fmt, db, op, split)
  {
    hide DocFits, Plain, NamedOnce, StaticUpdate, Suits, Fits, SameAt, EncodeDoc, Sound, Names;
    if op.Change? {
      StaticSuits(l, op.u, split, Chosen(op.one, Hits(op.cs, Names(l.columns), fmt, split, db)));
    }
  }

  lemma {:induction false} FreeAgrees(l: Layout, whole: seq<Row>, split: seq<Row>, a: Row, b: Row)
    requires IsLayout(l) && SameTable(l, whole, split) && SameDoc(l, a, b)
    ensures Free(whole, a) == Free(split, b)
  {
    hide SameDoc, Id, IsLayout;
    SameId(l, a, b);
    forall i | 0 <= i < |whole|
      ensures Id(whole[i]) == Id(split[i])
    {
      SameId(l, whole[i], split[i]);
    }
  }

  lemma {:induction false} StepAgrees(l: Layout, fmt: Format, db: Database, op: Op, whole: seq<Row>, split: seq<Row>,
                                      newWhole: seq<Row>, newSplit: seq<Row>)
    requires IsLayout(l) && IsGo(l.go) && SameTable(l, whole, split) && OpSuits(l, fmt, db, op, split)
    requires StepOf(Kind.Whole, fmt, db, op, whole, newWhole) && StepOf(Columnar(l), fmt, db, op, split, newSplit)
    ensures SameTable(l, newWhole, newSplit)
  {
    hide SameDoc, DocFits, Plain, Suits, Updated, Hits, Free, NewRow, Survives, Names, HasData, SurvivorPanics,
      IsLayout;
    match op {
      case Insertion(document, newId, time) =>
        var doc := Completed(document, newId, time);
        InsertAgrees(l, doc);
        FreeAgrees(l, whole, split, NewRow(Kind.Whole, doc), NewRow(Columnar(l), doc));
      case Change(cs, u, one, now) =>
        if !SurvivorPanics(cs) {
          HitsAgree(l, cs, fmt, whole, split, db);
          UpdateAgrees(l, u, now, whole, split, newWhole, newSplit, Chosen(one, Hits(cs, {}, fmt, whole, db)));
        }
    }
  }

  ghost predicate IsRun(kind: Kind, fmt: Format, db: Database, ops: seq<Op>, tables: seq<seq<Row>>) {
    && |tables| == |ops| + 1 && tables[0] == []
    && forall i | 0 <= i < |ops| :: StepOf(kind, fmt, db, ops[i], tables[i], tables[i + 1])
  }

  /** Over any run of inserts and updates that suit the rows they find, started empty,
      the two stores hold the same documents after every operation. */
  lemma {:induction false} RunsAgree(l: Layout, fmt: Format, db: Database, ops: seq<Op>, whole: seq<seq<Row>>,
                                     split: seq<seq<Row>>, n: nat)
    requires IsLayout(l) && IsGo(l.go) && n <= |ops|
    requires IsRun(Kind.Whole, fmt, db, ops, whole) && IsRun(Columnar(l), fmt, db, ops, split)
    requires forall i | 0 <= i < |ops| :: OpSuits(l, fmt, db, ops[i], split[i])
    ensures SameTable(l, whole[n], split[n])
    decreases n
  {
    hide StepOf, OpSuits, IsLayout, SameDoc;
    if n > 0 {
      RunsAgree(l, fmt, db, ops, whole, split, n - 1);
      StepAgrees(l, fmt, db, ops[n - 1], whole[n - 1], split[n - 1], whole[n], split[n]);
    }
  }

  // ---- The stores themselves

  method QueryOf(cs: seq<Condition>) returns (query: BaseQueryBuilder)
    ensures fresh(query) && query.conditions == cs
  {
    query := new BaseQueryBuilder();
    for i := 0 to |cs|
      invariant fresh(query) && query.conditions == cs[..i]
    {
      query.Where(cs[i].field, cs[i].op, cs[i].value);
      assert cs[..i + 1] == cs[..i] + [cs[i]];
    }
    assert cs[..|cs|] == cs;
  }

  /** The same operation on a store object: its table takes the operation's step. */
  method Perform(store: Stores.Store, op: Op)
    requires store.Valid() && (op.Change? ==> LeavesId(op.u))
    modifies store
    ensures store.Valid() && StepOf(store.kind, store.fmt, store.db, op, old(store.rows), store.rows)
  {
    match op {
      case Insertion(document, newId, time) =>
        var doc, ok := store.Insert(document, newId, time);
      case Change(cs, u, one, now) =>
        var query := QueryOf(cs);
        var modified := store.PerformUpdate(query, u, one, now);
    }
  }

  /** The same operations on both stores leave the same documents in both. */
  method Replay(l: Layout, fmt: Format, engine: Engine, order: Order, ghost db: Database, ops: seq<Op>)
    returns (whole: Stores.Store, split: Stores.Store)
    requires Runs(engine, db) && IsOrder(order) && IsLayout(l) && IsGo(l.go)
    requires forall i | 0 <= i < |ops| :: StaticOp(l, ops[i])
    ensures fresh(whole) && fresh(split) && whole.Valid() && split.Valid()
    ensures whole.kind == Kind.Whole && split.kind == Columnar(l) && SameTable(l, whole.rows, split.rows)
  {
    whole := new Stores.Store(Kind.Whole, fmt, engine, order, db);
    split := new Stores.Store(Columnar(l), fmt, engine, order, db);
    hide SameDoc, StaticOp, StepOf, OpSuits, IsLayout, IsGo, Runs, IsOrder;
    for i := 0 to |ops|
      invariant fresh(whole) && fresh(split) && whole != split && whole.Valid() && split.Valid()
      invariant whole.kind == Kind.Whole && split.kind == Columnar(l) && whole.fmt == split.fmt == fmt &&
        whole.db == split.db == db
      invariant SameTable(l, whole.rows, split.rows)
    {
      ghost var wholeRows, splitRows := whole.rows, split.rows;
      StaticOpSuits(l, fmt, db, ops[i], wholeRows, splitRows);
      StaticOpLeavesId(l, ops[i]);
      Perform(whole, ops[i]);
      Perform(split, ops[i]);
      StepAgrees(l, fmt, db, ops[i], wholeRows, splitRows, whole.rows, split.rows);
    }
  }

  lemma {:induction false} StaticOpLeavesId(l: Layout, op: Op)
    requires StaticOp(l, op)
    ensures op.Change? ==> LeavesId(op.u)
  {
    if op.Change? {
      StaticLeavesId(l, op.u);
    }
  }
}
