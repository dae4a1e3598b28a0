/** The two layouts of a collection: each document whole as JSON, or split into
    typed columns and a JSON overflow. The split is a partition that reading back
    inverts, a projection may be pushed down into it, and conditions fetch the
    same values from either layout. */
module Layouts {
  import opened Values
  import opened Sql
  import opened Truth
  import opened Updates
  import Emission
  import QueryBuilder

  datatype ColumnType = TextColumn | IntegerColumn | RealColumn | BooleanColumn | DateColumn | JsonColumn

  /** `default` is what SQL puts where an insert leaves the column out. */
  datatype Column = Column(name: string, kind: ColumnType, default: Option<Value>)

  /** Go's `%v`, its JSON encoder, and its RFC 3339 parser (the text of the parsed
      time; times are values by their text). */
  datatype Library = Library(show: Format, json: Format, time: string -> Option<string>)

  datatype Layout = Layout(useColumns: bool, columns: seq<Column>, go: Library)

  // ---- Conversion

  function Convert(v: Value, kind: ColumnType, go: Library): Value {
    if v.Null? then Null
    else match kind
      case TextColumn => Str(go.show(v))
      case IntegerColumn => if v.Num? then Num(Emission.Truncate(v.n) as real) else Str(go.show(v))
      case RealColumn => if v.Num? then v else Str(go.show(v))
      case BooleanColumn =>
        if v.Bool? then v
        else if v.Str? then Bool(v.s == "true" || v.s == "1")
        else if v.Num? then Bool(v.n != 0.0)
        else Bool(false)
      case DateColumn =>
        if v.Str? then (if go.time(v.s).Some? then Str(go.time(v.s).value) else v)
        else Str(go.show(v))
      case JsonColumn => Str(go.json(v))
  }

  /** What a column makes of a value: an integer is cut off towards zero, a boolean is
      read from the texts `true` and `1` or from a number, and what has no form of its
      own in the column becomes a text. */
  lemma {:induction false} Converts(v: Value, kind: ColumnType, go: Library)
    requires !v.Null?
    ensures kind.TextColumn? ==> Convert(v, kind, go) == Str(go.show(v))
    ensures kind.IntegerColumn? && v.Num? ==>
      Convert(v, kind, go).Num? && var n := Convert(v, kind, go).n;
      && n.Floor as real == n
      && if v.n >= 0.0 then n <= v.n < n + 1.0 else n - 1.0 < v.n <= n
    ensures kind.RealColumn? && v.Num? ==> Convert(v, kind, go) == v
    ensures (kind.IntegerColumn? || kind.RealColumn?) && !v.Num? ==> Convert(v, kind, go) == Str(go.show(v))
    ensures kind.BooleanColumn? ==>
      Convert(v, kind, go) == Bool(v == Bool(true) || v == Str("true") || v == Str("1") || (v.Num? && v.n != 0.0))
    ensures kind.DateColumn? ==>
      Convert(v, kind, go) ==
      if v.Str? && go.time(v.s).Some? then Str(go.time(v.s).value) else if v.Str? then v else Str(go.show(v))
    ensures kind.JsonColumn? ==> Convert(v, kind, go) == Str(go.json(v))
  {
    if kind.IntegerColumn? && v.Num? {
      assert Convert(v, kind, go) == Num(Emission.Truncate(v.n) as real);
    }
  }

  /** Strings print as themselves, and as JSON they gain their quotes. */
  ghost predicate IsGo(go: Library) {
    forall s :: go.show(Str(s)) == s && go.json(Str(s)) != s
  }

  /** The values a column keeps as they are. */
  predicate KeptBy(v: Value, kind: ColumnType, go: Library) {
    v.Null? ||
    match kind
    case TextColumn => v.Str?
    case IntegerColumn => v.Str? || (v.Num? && v.n.Floor as real == v.n)
    case RealColumn => v.Str? || v.Num?
    case BooleanColumn => v.Bool?
    case DateColumn => v.Str? && (go.time(v.s) == None || go.time(v.s) == Some(v.s))
    case JsonColumn => false
  }

  lemma {:induction false} ConvertKeeps(v: Value, kind: ColumnType, go: Library)
    requires IsGo(go)
    ensures Convert(v, kind, go) == v <==> KeptBy(v, kind, go)
  {
    hide Emission.Truncate;
    if v.Str? {
      assert go.show(Str(v.s)) == v.s && go.json(Str(v.s)) != v.s;
    }
    if v.Num? {
      TruncateKeeps(v.n);
    }
  }

  lemma {:induction false} TruncateKeeps(x: real)
    ensures Emission.Truncate(x) as real == x <==> x.Floor as real == x
  {
    var t := Emission.Truncate(x);
    if x < 0.0 {
      assert t == -(-x).Floor;
      FloorOfInteger(x, t);
    }
  }

  lemma {:induction false} FloorOfInteger(x: real, n: int)
    ensures x == n as real ==> x.Floor == n && (-x).Floor == -n
    ensures x.Floor as real == x ==> (-x).Floor == -x.Floor
  {
    assert (-n) as real == -(n as real);
    assert (-x.Floor) as real == -(x.Floor as real);
  }

  // ---- Columns of a layout

  function Names(columns: seq<Column>): (names: set<string>)
    ensures "data" !in names
    ensures forall c | c in columns && c.name != "data" :: c.name in names
  {
    if columns == [] then {}
    else
      var last := columns[|columns| - 1];
      Names(columns[..|columns| - 1]) + (if last.name != "data" then {last.name} else {})
  }

  /** The definition in force for a name: the last one. */
  function KindOf(columns: seq<Column>, name: string): ColumnType
    requires name in Names(columns)
  {
    var last := columns[|columns| - 1];
    if last.name == name then last.kind else KindOf(columns[..|columns| - 1], name)
  }

  function DefaultOf(columns: seq<Column>, name: string): Value
    requires name in Names(columns)
  {
    var last := columns[|columns| - 1];
    if last.name == name then (if last.default.Some? then last.default.value else Null)
    else DefaultOf(columns[..|columns| - 1], name)
  }

  /** The columns of the table in order, as `SELECT *` lists them. */
  function AllNames(columns: seq<Column>): (names: seq<string>)
    ensures |names| == |columns|
    ensures forall k :: k in names <==>
      k in Names(columns) || (k == "data" && exists c | c in columns :: c.name == "data")
  {
    if columns == [] then []
    else
      var n := |columns| - 1;
      assert forall c :: c in columns <==> c in columns[..n] || c == columns[n];
      AllNames(columns[..n]) + [columns[n].name]
  }

  predicate HasData(columns: seq<Column>) {
    "data" in AllNames(columns)
  }

  // ---- Splitting a document

  function Get(doc: Document, k: string): Value {
    if k in doc then doc[k] else Null
  }

  function ColumnPart(l: Layout, doc: Document): Document {
    if l.useColumns then
      map k | k in doc && k in Names(l.columns) :: Convert(doc[k], KindOf(l.columns, k), l.go)
    else map["id" := Get(doc, "id"), "created_at" := Get(doc, "createdAt"), "updated_at" := Get(doc, "updatedAt")]
  }

  function Overflow(l: Layout, doc: Document): Document {
    if l.useColumns then map k | k in doc && k !in Names(l.columns) :: doc[k] else doc
  }

  function EncodeDoc(doc: Document): Document {
    map k | k in doc :: Encode(doc[k])
  }

  /** The row an INSERT of these parts makes: SQL fills in what is left out. */
  function MakeRow(l: Layout, columnValues: Document, jsonData: Document): Row {
    Row((map k | k in Names(l.columns) && k !in columnValues :: DefaultOf(l.columns, k)) + columnValues,
        EncodeDoc(jsonData))
  }

  function Inserted(l: Layout, doc: Document): Row {
    MakeRow(l, ColumnPart(l, doc), Overflow(l, doc))
  }

  // ---- Reading a row

  function ScanColumn(row: Row, name: string, doc: Document): Document {
    if name == "data" then doc + row.data
    else if name in row.cells && !row.cells[name].Null? then doc[name := row.cells[name]]
    else doc
  }

  function Scan(row: Row, selected: seq<string>): Document {
    if selected == [] then map[]
    else ScanColumn(row, selected[|selected| - 1], Scan(row, selected[..|selected| - 1]))
  }

  /** Cells only in columns, overflow only outside them. */
  predicate WellStored(l: Layout, row: Row) {
    l.useColumns && row.cells.Keys <= Names(l.columns) && row.data.Keys !! Names(l.columns)
  }

  /** What one field of a row reads as, given the columns selected. */
  function ReadField(row: Row, selected: seq<string>, k: string): Option<Value> {
    if "data" in selected && k in row.data then Some(row.data[k])
    else if k in selected && k != "data" && k in row.cells && !row.cells[k].Null? then Some(row.cells[k])
    else None
  }

  lemma {:induction false} ScanAt(l: Layout, row: Row, selected: seq<string>, k: string)
    requires WellStored(l, row)
    ensures Lookup(Scan(row, selected), k) == ReadField(row, selected, k)
    decreases selected
  {
    if selected != [] {
      var n := |selected| - 1;
      ScanAt(l, row, selected[..n], k);
      assert selected == selected[..n] + [selected[n]];
    }
  }

  lemma {:induction false} SplitPartitions(l: Layout, doc: Document)
    requires l.useColumns
    ensures ColumnPart(l, doc).Keys !! Overflow(l, doc).Keys
    ensures ColumnPart(l, doc).Keys + Overflow(l, doc).Keys == doc.Keys
    ensures WellStored(l, Inserted(l, doc))
  {
  }

  // ---- Inserting and reading back

  /** A column field is kept by its column and not null, a column left out has no
      default, and an overflow field is what JSON can hold. */
  predicate FieldFaithful(l: Layout, doc: Document, k: string) {
    if k in Names(l.columns) then
      if k in doc then !doc[k].Null? && KeptBy(doc[k], KindOf(l.columns, k), l.go) else DefaultOf(l.columns, k).Null?
    else k in doc ==> Encode(doc[k]) == doc[k]
  }

  ghost predicate Faithful(l: Layout, doc: Document) {
    forall k :: FieldFaithful(l, doc, k)
  }

  lemma {:induction false} FieldReadBack(l: Layout, doc: Document, k: string)
    requires l.useColumns && IsGo(l.go) && HasData(l.columns)
    ensures Lookup(Scan(Inserted(l, doc), AllNames(l.columns)), k) == Lookup(doc, k) <==> FieldFaithful(l, doc, k)
  {
    hide Convert, KeptBy, Encode;
    var row := Inserted(l, doc);
    SplitPartitions(l, doc);
    ScanAt(l, row, AllNames(l.columns), k);
    if k in doc && k in Names(l.columns) {
      ConvertKeeps(doc[k], KindOf(l.columns, k), l.go);
      NullConverts(doc[k], KindOf(l.columns, k), l.go);
    }
  }

  lemma {:induction false} NullConverts(v: Value, kind: ColumnType, go: Library)
    ensures Convert(v, kind, go).Null? <==> v.Null?
  {
  }

  /** Reading an inserted row gives the document back exactly when it is faithful. */
  lemma {:induction false} ReadBack(l: Layout, doc: Document)
    requires l.useColumns && IsGo(l.go) && HasData(l.columns)
    ensures Scan(Inserted(l, doc), AllNames(l.columns)) == doc <==> Faithful(l, doc)
  {
    hide FieldFaithful, Inserted, Scan, AllNames;
    forall k
      ensures Lookup(Scan(Inserted(l, doc), AllNames(l.columns)), k) == Lookup(doc, k) <==> FieldFaithful(l, doc, k)
    {
      FieldReadBack(l, doc, k);
    }
    if Faithful(l, doc) {
      SameLookups(Scan(Inserted(l, doc), AllNames(l.columns)), doc);
    }
  }

  // ---- Projection

  predicate Includes(fields: map<string, int>) {
    exists f | f in fields :: fields[f] == 1
  }

  predicate Drops(fields: map<string, int>, k: string) {
    k in fields && fields[k] == 0
  }

  predicate Takes(fields: map<string, int>, k: string) {
    k in fields && fields[k] == 1
  }

  /** What applyFieldProjection keeps of a document. */
  function Project(doc: Document, fields: map<string, int>): Document {
    if Includes(fields) then map k | k in doc && (Takes(fields, k) || (k == "id" && "id" !in fields)) :: doc[k]
    else map k | k in doc && !Drops(fields, k) :: doc[k]
  }

  /** The columns a projection selects, in some order. */
  ghost predicate SelectedFor(l: Layout, fields: map<string, int>, selected: seq<string>) {
    var names := Names(l.columns);
    if !l.useColumns then selected == AllNames(l.columns)
    else if Includes(fields) then
      forall k :: k in selected <==>
        || k == "id"
        || (Takes(fields, k) && k in names)
        || (k == "data" && exists f | f in fields :: fields[f] == 1 && f !in names)
    else
      forall k :: k in selected <==> k in AllNames(l.columns) && (!Drops(fields, k) || DropsAll(l, fields))
  }

  /** No column would be left, so all are selected. */
  ghost predicate DropsAll(l: Layout, fields: map<string, int>) {
    forall k | k in AllNames(l.columns) :: Drops(fields, k)
  }

  /** The one projection that shows: excluding the field `data`, and thereby the
      column of that name, while some other column stays. */
  ghost predicate HidesOverflow(l: Layout, fields: map<string, int>) {
    !Includes(fields) && Drops(fields, "data") && !DropsAll(l, fields)
  }

  lemma {:induction false} ProjectAt(doc: Document, fields: map<string, int>, k: string)
    ensures Lookup(Project(doc, fields), k) ==
            if (if Includes(fields) then Takes(fields, k) || (k == "id" && "id" !in fields) else !Drops(fields, k))
            then Lookup(doc, k) else None
  {
  }

  lemma {:induction false} PushDownField(l: Layout, fields: map<string, int>, selected: seq<string>, row: Row,
                                         k: string)
    requires WellStored(l, row) && HasData(l.columns) && "id" in Names(l.columns) && SelectedFor(l, fields, selected)
    ensures (Lookup(Project(Scan(row, selected), fields), k)
             == Lookup(Project(Scan(row, AllNames(l.columns)), fields), k)) <==>
            (HidesOverflow(l, fields) && k in row.data ==> Drops(fields, k))
  {
    hide Project, Scan, AllNames;
    ScanAt(l, row, selected, k);
    ScanAt(l, row, AllNames(l.columns), k);
    ProjectAt(Scan(row, selected), fields, k);
    ProjectAt(Scan(row, AllNames(l.columns)), fields, k);
    if Includes(fields) {
      if k in row.data && Takes(fields, k) {
        assert k in fields && fields[k] == 1 && k !in Names(l.columns);
      }
    }
  }

  /** Selecting only a projection's columns shows in no document, except when the
      projection hides the overflow and does not exclude all of its fields anyway. */
  lemma {:induction false} PushDownInvisible(l: Layout, fields: map<string, int>, selected: seq<string>, row: Row)
    requires WellStored(l, row) && HasData(l.columns) && "id" in Names(l.columns) && SelectedFor(l, fields, selected)
    ensures Project(Scan(row, selected), fields) == Project(Scan(row, AllNames(l.columns)), fields)
            <==> (HidesOverflow(l, fields) ==> forall k | k in row.data :: Drops(fields, k))
  {
    var pushed, whole := Project(Scan(row, selected), fields), Project(Scan(row, AllNames(l.columns)), fields);
    forall k
      ensures Lookup(pushed, k) == Lookup(whole, k) <==>
        (HidesOverflow(l, fields) && k in row.data ==> Drops(fields, k))
    {
      PushDownField(l, fields, selected, row, k);
    }
    if HidesOverflow(l, fields) ==> forall k | k in row.data :: Drops(fields, k) {
      SameLookups(pushed, whole);
    }
  }

  // ---- The loops

  method SeparateData(l: Layout, doc: Document) returns (columnValues: Document, jsonData: Document)
    ensures columnValues == ColumnPart(l, doc) && jsonData == Overflow(l, doc)
  {
    if !l.useColumns {
      return map["id" := Get(doc, "id"), "created_at" := Get(doc, "createdAt"),
                 "updated_at" := Get(doc, "updatedAt")], doc;
    }
    hide Convert, KindOf, Names;
    columnValues, jsonData := map[], map[];
    var todo := doc.Keys;
    while todo != {}
      invariant todo <= doc.Keys
      invariant forall k :: k in columnValues <==> k in doc && k !in todo && k in Names(l.columns)
      invariant forall k | k in columnValues :: columnValues[k] == Convert(doc[k], KindOf(l.columns, k), l.go)
      invariant forall k :: k in jsonData <==> k in doc && k !in todo && k !in Names(l.columns)
      invariant forall k | k in jsonData :: jsonData[k] == doc[k]
      decreases |todo|
    {
      var key :| key in todo;
      if key in Names(l.columns) {
        columnValues := columnValues[key := Convert(doc[key], KindOf(l.columns, key), l.go)];
      } else {
        jsonData := jsonData[key := doc[key]];
      }
      todo := todo - {key};
    }
  }

  method HasInclusions(fields: map<string, int>) returns (found: bool)
    ensures found == Includes(fields)
  {
    var todo := fields.Keys;
    while todo != {}
      invariant todo <= fields.Keys
      invariant forall f | f in fields.Keys - todo :: fields[f] != 1
      decreases |todo|
    {
      var f :| f in todo;
      if fields[f] == 1 {
        return true;
      }
      todo := todo - {f};
    }
    return false;
  }

  method ApplyFieldProjection(doc: Document, fields: map<string, int>) returns (result: Document)
    ensures result == Project(doc, fields)
    ensures forall k :: k in result <==>
      (k in doc &&
       if exists f | f in fields :: fields[f] == 1
       then (k in fields && fields[k] == 1) || (k == "id" && "id" !in fields)
       else !(k in fields && fields[k] == 0))
    ensures forall k | k in result :: result[k] == doc[k]
  {
    var inclusions := HasInclusions(fields);
    if inclusions {
      result := IncludeFields(doc, fields);
    } else {
      result := ExcludeFields(doc, fields);
    }
  }

  method IncludeFields(doc: Document, fields: map<string, int>) returns (result: Document)
    requires Includes(fields)
    ensures result == Project(doc, fields)
  {
    result := map[];
    var todo := fields.Keys;
    while todo != {}
      invariant todo <= fields.Keys
      invariant forall k :: k in result <==> k in doc && k !in todo && Takes(fields, k)
      invariant forall k | k in result :: result[k] == doc[k]
      decreases |todo|
    {
      var field :| field in todo;
      if fields[field] == 1 && field in doc {
        result := result[field := doc[field]];
      }
      todo := todo - {field};
    }
    if "id" !in fields && "id" in doc {
      result := result["id" := doc["id"]];
    }
  }

  method ExcludeFields(doc: Document, fields: map<string, int>) returns (result: Document)
    requires !Includes(fields)
    ensures result == Project(doc, fields)
  {
    result := map[];
    var todo := doc.Keys;
    while todo != {}
      invariant todo <= doc.Keys
      invariant forall k :: k in result <==> k in doc && k !in todo && !Drops(fields, k)
      invariant forall k | k in result :: result[k] == doc[k]
      decreases |todo|
    {
      var field :| field in todo;
      if field !in fields || fields[field] != 0 {
        result := result[field := doc[field]];
      }
      todo := todo - {field};
    }
  }

  method BuildSelectClause(l: Layout, fields: map<string, int>) returns (columns: seq<string>)
    ensures SelectedFor(l, fields, columns)
  {
    if !l.useColumns {
      return AllNames(l.columns);
    }
    var inclusions := HasInclusions(fields);
    if inclusions {
      columns := IncludedColumns(l, fields);
    } else {
      columns := [];
      var all := AllNames(l.columns);
      for i := 0 to |all|
        invariant forall k :: k in columns <==> k in all[..i] && !Drops(fields, k)
      {
        if all[i] !in fields || fields[all[i]] != 0 {
          columns := columns + [all[i]];
        }
      }
      assert all[..|all|] == all;
      if columns == [] {
        assert forall k | k in all :: Drops(fields, k);
        columns := all;
      } else {
        assert columns[0] in columns && columns[0] in all;
      }
    }
  }

  method IncludedColumns(l: Layout, fields: map<string, int>) returns (columns: seq<string>)
    requires l.useColumns && Includes(fields)
    ensures SelectedFor(l, fields, columns)
  {
    var names := Names(l.columns);
    columns := ["id"];
    var todo := fields.Keys;
    while todo != {}
      invariant todo <= fields.Keys
      invariant forall k :: k in columns <==> k == "id" || (k !in todo && Takes(fields, k) && k in names)
      decreases |todo|
    {
      var field :| field in todo;
      if fields[field] == 1 && field != "id" && field in names {
        columns := columns + [field];
      }
      todo := todo - {field};
    }
    todo := fields.Keys;
    while todo != {}
      invariant todo <= fields.Keys
      invariant forall f | f in fields.Keys - todo :: fields[f] == 1 ==> f in names
      decreases |todo|
    {
      var field :| field in todo;
      if fields[field] == 1 && field !in names {
        columns := columns + ["data"];
        return;
      }
      todo := todo - {field};
    }
  }

  method ScanRow(row: Row, selected: seq<string>) returns (doc: Document)
    ensures doc == Scan(row, selected)
  {
    doc := map[];
    for i := 0 to |selected|
      invariant doc == Scan(row, selected[..i])
    {
      var name := selected[i];
      if name == "data" {
        doc := doc + row.data;
      } else if name in row.cells && !row.cells[name].Null? {
        doc := doc[name := row.cells[name]];
      }
      assert selected[..i + 1][..i] == selected[..i];
    }
    assert selected[..|selected|] == selected;
  }

  // ---- Conditions over either layout

  /** The row of the JSON store; its other columns are never asked for. */
  function Whole(doc: Document): Row {
    Row(map["id" := Get(EncodeDoc(doc), "id")], EncodeDoc(doc))
  }

  predicate Dotted(f: string) {
    '.' in f
  }

  lemma {:induction false} SplitUndotted(f: string)
    ensures !Dotted(f) <==> |Split(f)| == 1
    ensures |Split(f)| == 1 ==> Split(f) == [f]
    decreases f
  {
    if f != [] {
      SplitUndotted(f[1..]);
      assert f == [f[0]] + f[1..];
    }
  }

  /** The columns SQL fills in when a document has no such field. In every layout of
      the source `created_at` and `updated_at` are among them. */
  function Defaulted(l: Layout): set<string> {
    set k | k in Names(l.columns) && !DefaultOf(l.columns, k).Null?
  }

  /** A column field a condition asks for: kept by its column, null included, or left
      out of the document and not filled in. */
  predicate FieldComparable(l: Layout, doc: Document, k: string) {
    k in Names(l.columns) ==>
      if k in doc then KeptBy(doc[k], KindOf(l.columns, k), l.go) else k !in Defaulted(l)
  }

  /** A condition on a field fetches the same value from both layouts, unless its
      column has a dotted name, which the JSON store takes for a path. */
  lemma {:induction false} SameFetch(l: Layout, doc: Document, f: string)
    requires l.useColumns && IsGo(l.go) && FieldComparable(l, doc, Split(f)[0])
    requires f in Names(l.columns) ==> !Dotted(f)
    ensures Fetch(QueryBuilder.RefOf(Names(l.columns), f), Inserted(l, doc)) ==
            Fetch(QueryBuilder.RefOf({}, f), Whole(doc))
  {
    SplitUndotted(f);
    var head := Split(f)[0];
    if head in doc && head in Names(l.columns) {
      ConvertKeeps(doc[head], KindOf(l.columns, head), l.go);
      assert Encode(doc[head]) == doc[head];
    }
    assert head in Overflow(l, doc) ==> EncodeDoc(doc)[head] == EncodeDoc(Overflow(l, doc))[head];
  }

  // ---- Updating a row

  /** The row after an UPDATE: the identifier stays, so does a column the document
      no longer has, and the overflow is written unless it is empty. */
  function Rewritten(l: Layout, row: Row, doc: Document): Row {
    var part, rest := ColumnPart(l, doc), Overflow(l, doc);
    Row(row.cells + (part - {"id"}), if rest == map[] then row.data else EncodeDoc(rest))
  }

  /** A field that can be read back: the identifier is the row's, no column is
      unset, a column keeps its value, and the overflow is what JSON can hold. */
  predicate FieldRewritable(l: Layout, row: Row, doc: Document, k: string) {
    if k !in Names(l.columns) then k in doc ==> Encode(doc[k]) == doc[k]
    else if k == "id" then Get(row.cells, k) == Get(doc, k) && (k in doc ==> !doc[k].Null?)
    else if k in doc then !doc[k].Null? && KeptBy(doc[k], KindOf(l.columns, k), l.go)
    else Get(row.cells, k).Null?
  }

  ghost predicate Rewritable(l: Layout, row: Row, doc: Document) {
    forall k :: FieldRewritable(l, row, doc, k)
  }

  lemma {:induction false} RewrittenStored(l: Layout, row: Row, doc: Document)
    requires WellStored(l, row)
    ensures WellStored(l, Rewritten(l, row, doc))
  {
  }

  lemma {:induction false} RewrittenField(l: Layout, row: Row, doc: Document, k: string)
    requires WellStored(l, row) && Overflow(l, doc) != map[]
    ensures var after := Rewritten(l, row, doc);
      && (k in Names(l.columns) ==>
            Get(after.cells, k) == if k != "id" && k in doc then Convert(doc[k], KindOf(l.columns, k), l.go)
              else Get(row.cells, k))
      && Lookup(after.data, k) == if k in doc && k !in Names(l.columns) then Some(Encode(doc[k])) else None
  {
  }

  lemma {:induction false} FieldReadsBack(l: Layout, row: Row, doc: Document, k: string)
    requires WellStored(l, row) && IsGo(l.go) && HasData(l.columns)
    requires "updatedAt" in doc && "updatedAt" !in Names(l.columns)
    ensures Lookup(Scan(Rewritten(l, row, doc), AllNames(l.columns)), k) == Lookup(doc, k)
            <==> FieldRewritable(l, row, doc, k)
  {
    hide Convert, KeptBy, Encode;
    RewrittenStored(l, row, doc);
    ScanAt(l, Rewritten(l, row, doc), AllNames(l.columns), k);
    assert "updatedAt" in Overflow(l, doc);
    RewrittenField(l, row, doc, k);
    hide Rewritten, Scan, AllNames;
    if k in doc && k in Names(l.columns) {
      ConvertKeeps(doc[k], KindOf(l.columns, k), l.go);
      NullConverts(doc[k], KindOf(l.columns, k), l.go);
    }
  }

  /** A written document, whose `updatedAt` is no column, reads back exactly when
      all of its fields can. */
  lemma {:induction false} RewriteReadsBack(l: Layout, row: Row, doc: Document)
    requires WellStored(l, row) && IsGo(l.go) && HasData(l.columns)
    requires "updatedAt" in doc && "updatedAt" !in Names(l.columns)
    ensures Scan(Rewritten(l, row, doc), AllNames(l.columns)) == doc <==> Rewritable(l, row, doc)
  {
    hide FieldRewritable, Rewritten, Scan, AllNames;
    var back := Scan(Rewritten(l, row, doc), AllNames(l.columns));
    forall k
      ensures Lookup(back, k) == Lookup(doc, k) <==> FieldRewritable(l, row, doc, k)
    {
      FieldReadsBack(l, row, doc, k);
    }
    if Rewritable(l, row, doc) {
      SameLookups(back, doc);
    }
  }
}
