/** Schema migration: the difference between two lists of columns, applied to a
    table, and what is left to do when the table is read again. */
module Schema {
  import opened Values
  import opened Layouts

  /** SQLite is stricter about new columns when the table has rows. */
  datatype DatabaseType = SQLiteDb(hasRows: bool) | MySQLDb

  datatype Definition = Definition(name: string, kind: ColumnType, required: bool, default: Option<Value>,
                                   index: bool, primary: bool, timestamp: bool)

  datatype Migration =
    | AddColumn(column: Definition)
    | DropColumn(column: Definition)
    | ModifyColumn(column: Definition, was: Definition)

  /** A table: its columns by name. */
  type Table = map<string, Definition>

  predicate IsSystemColumn(name: string) {
    name == "id" || name == "created_at" || name == "updated_at" || name == "data"
  }

  predicate DefaultsEqual(a: Option<Value>, b: Option<Value>, fmt: Format) {
    if a.None? || b.None? then a.None? && b.None? else fmt(a.value) == fmt(b.value)
  }

  predicate NeedsModification(current: Definition, desired: Definition, fmt: Format) {
    current.kind != desired.kind || current.required != desired.required ||
    !DefaultsEqual(current.default, desired.default, fmt)
  }

  /** Of one type, both NOT NULL or both not, and with defaults that print alike, or none. */
  predicate Alike(a: Definition, b: Definition, fmt: Format) {
    && a.kind == b.kind && a.required == b.required && (a.default.None? <==> b.default.None?)
    && (a.default.Some? && b.default.Some? ==> fmt(a.default.value) == fmt(b.default.value))
  }

  lemma {:induction false} ModifiedUnlessAlike(current: Definition, desired: Definition, fmt: Format)
    ensures NeedsModification(current, desired, fmt) <==> !Alike(current, desired, fmt)
  {
  }

  lemma {:induction false} SystemColumnNames(name: string)
    ensures IsSystemColumn(name) <==> name in {"id", "created_at", "updated_at", "data"}
  {
  }

  function TableOf(columns: seq<Definition>): Table {
    if columns == [] then map[]
    else TableOf(columns[..|columns| - 1])[columns[|columns| - 1].name := columns[|columns| - 1]]
  }

  predicate DistinctNames(columns: seq<Definition>) {
    forall i, j | 0 <= i < j < |columns| :: columns[i].name != columns[j].name
  }

  // ---- Generating

  function Adds(current: Table, desired: seq<Definition>): seq<Migration> {
    if desired == [] then []
    else
      var d := desired[|desired| - 1];
      Adds(current, desired[..|desired| - 1]) + if d.name in current then [] else [AddColumn(d)]
  }

  function Drops(current: seq<Definition>, desired: Table): seq<Migration> {
    if current == [] then []
    else
      var c := current[|current| - 1];
      Drops(current[..|current| - 1], desired) +
      if c.name in desired || IsSystemColumn(c.name) then [] else [DropColumn(c)]
  }

  function Modifies(current: Table, desired: seq<Definition>, fmt: Format): seq<Migration> {
    if desired == [] then []
    else
      var d := desired[|desired| - 1];
      Modifies(current, desired[..|desired| - 1], fmt) +
      if d.name in current && NeedsModification(current[d.name], d, fmt) then [ModifyColumn(d, current[d.name])] else []
  }

  function Migrations(db: DatabaseType, fmt: Format, current: seq<Definition>,
                      desired: seq<Definition>): seq<Migration>
  {
    Adds(TableOf(current), desired) +
    if db.SQLiteDb? then [] else Drops(current, TableOf(desired)) + Modifies(TableOf(current), desired, fmt)
  }

  method MapByName(columns: seq<Definition>) returns (m: Table)
    ensures m == TableOf(columns)
  {
    m := map[];
    for i := 0 to |columns|
      invariant m == TableOf(columns[..i])
    {
      assert columns[..i + 1][..i] == columns[..i];
      m := m[columns[i].name := columns[i]];
    }
    assert columns[..|columns|] == columns;
  }

  method GenerateMigrations(db: DatabaseType, fmt: Format, current: seq<Definition>, desired: seq<Definition>)
    returns (migrations: seq<Migration>)
    ensures migrations == Migrations(db, fmt, current, desired)
  {
    var currentMap := MapByName(current);
    var desiredMap := MapByName(desired);
    migrations := FindAdds(currentMap, desired);
    if !db.SQLiteDb? {
      var drops := FindDrops(current, desiredMap);
      var changes := FindModifies(currentMap, desired, fmt);
      migrations := migrations + (drops + changes);
    }
  }

  method FindAdds(current: Table, desired: seq<Definition>) returns (migrations: seq<Migration>)
    ensures migrations == Adds(current, desired)
  {
    migrations := [];
    for i := 0 to |desired|
      invariant migrations == Adds(current, desired[..i])
    {
      assert desired[..i + 1][..i] == desired[..i];
      if desired[i].name !in current {
        migrations := migrations + [AddColumn(desired[i])];
      }
    }
    assert desired[..|desired|] == desired;
  }

  method FindDrops(current: seq<Definition>, desired: Table) returns (migrations: seq<Migration>)
    ensures migrations == Drops(current, desired)
  {
    migrations := [];
    for i := 0 to |current|
      invariant migrations == Drops(current[..i], desired)
    {
      assert current[..i + 1][..i] == current[..i];
      if current[i].name !in desired && !IsSystemColumn(current[i].name) {
        migrations := migrations + [DropColumn(current[i])];
      }
    }
    assert current[..|current|] == current;
  }

  method FindModifies(current: Table, desired: seq<Definition>, fmt: Format) returns (migrations: seq<Migration>)
    ensures migrations == Modifies(current, desired, fmt)
  {
    hide NeedsModification;
    migrations := [];
    for i := 0 to |desired|
      invariant migrations == Modifies(current, desired[..i], fmt)
    {
      assert desired[..i + 1][..i] == desired[..i];
      var d := desired[i];
      if d.name in current && NeedsModification(current[d.name], d, fmt) {
        migrations := migrations + [ModifyColumn(d, current[d.name])];
      }
    }
    assert desired[..|desired|] == desired;
  }

  // ---- Executing

  /** A column declared with DEFAULT CURRENT_TIMESTAMP. */
  predicate DefaultsToNow(d: Definition) {
    d.timestamp || (d.default == Some(Str("now")) && d.kind.DateColumn?)
  }

  /** The columns SQLite does not add: a primary key, and to a table with rows one
      that defaults to the current time or is NOT NULL without a default. */
  predicate Refuses(db: DatabaseType, d: Definition) {
    db.SQLiteDb? && (d.primary || (db.hasRows && (DefaultsToNow(d) || (d.required && d.default.None?))))
  }

  /** executeMigration on the table; `None` when the database refuses the step. */
  function Execute(db: DatabaseType, table: Table, m: Migration): Option<Table> {
    match m
    case AddColumn(c) => if c.name in table || Refuses(db, c) then None else Some(table[c.name := c])
    case DropColumn(c) => if db.SQLiteDb? || c.name !in table then None else Some(table - {c.name})
    case ModifyColumn(c, _) => if db.SQLiteDb? || c.name !in table then None else Some(table[c.name := c])
  }

  function ExecuteAll(db: DatabaseType, table: Table, ms: seq<Migration>): Option<Table> {
    if ms == [] then Some(table)
    else
      var before :- ExecuteAll(db, table, ms[..|ms| - 1]);
      Execute(db, before, ms[|ms| - 1])
  }

  lemma {:induction false} ExecuteConcat(db: DatabaseType, table: Table, a: seq<Migration>, b: seq<Migration>)
    requires ExecuteAll(db, table, a).Some?
    ensures ExecuteAll(db, table, a + b) == ExecuteAll(db, ExecuteAll(db, table, a).value, b)
    decreases b
  {
    if b == [] {
      assert a + b == a;
    } else {
      ExecuteConcat(db, table, a, b[..|b| - 1]);
      assert (a + b)[..|a + b| - 1] == a + b[..|b| - 1];
    }
  }

  lemma {:induction false} ExecuteOne(db: DatabaseType, table: Table, ms: seq<Migration>, m: Migration)
    ensures ExecuteAll(db, table, ms + [m]) ==
            if ExecuteAll(db, table, ms).Some? then Execute(db, ExecuteAll(db, table, ms).value, m) else None
  {
    assert (ms + [m])[..|ms|] == ms;
  }

  // ---- The three phases

  ghost predicate Lists(columns: seq<Definition>, name: string) {
    exists i | 0 <= i < |columns| :: columns[i].name == name
  }

  lemma {:induction false} TableOfAt(columns: seq<Definition>, i: nat)
    requires DistinctNames(columns) && i < |columns|
    ensures columns[i].name in TableOf(columns) && TableOf(columns)[columns[i].name] == columns[i]
    decreases columns
  {
    var n := |columns| - 1;
    if i < n {
      TableOfAt(columns[..n], i);
      assert columns[i].name != columns[n].name;
    }
  }

  lemma {:induction false} TableOfNames(columns: seq<Definition>, name: string)
    ensures name in TableOf(columns) <==> Lists(columns, name)
    ensures name in TableOf(columns) ==> TableOf(columns)[name] in columns && TableOf(columns)[name].name == name
    decreases columns
  {
    if columns != [] {
      var n := |columns| - 1;
      TableOfNames(columns[..n], name);
      assert columns == columns[..n] + [columns[n]];
      assert forall i | 0 <= i < n :: columns[..n][i] == columns[i];
    }
  }

  lemma {:induction false} LastIsNew(columns: seq<Definition>)
    requires DistinctNames(columns) && columns != []
    ensures columns[|columns| - 1].name !in TableOf(columns[..|columns| - 1])
  {
    TableOfNames(columns[..|columns| - 1], columns[|columns| - 1].name);
  }

  /** The last column of each list, one more step. */
  lemma {:induction false} LastStep(current: Table, columns: seq<Definition>, desired: Table, fmt: Format)
    requires columns != []
    ensures var init, d := columns[..|columns| - 1], columns[|columns| - 1];
      && TableOf(columns) == TableOf(init)[d.name := d]
      && Adds(current, columns) ==
        (if d.name in current then Adds(current, init) else Adds(current, init) + [AddColumn(d)])
      && Drops(columns, desired) ==
         (if d.name in desired || IsSystemColumn(d.name) then Drops(init, desired)
          else Drops(init, desired) + [DropColumn(d)])
      && Modifies(current, columns, fmt) ==
         if d.name in current && NeedsModification(current[d.name], d, fmt)
         then Modifies(current, init, fmt) + [ModifyColumn(d, current[d.name])]
         else Modifies(current, init, fmt)
  {
    hide NeedsModification;
  }

  lemma {:induction false} AddedOne(a: Table, t: Table, n: string, d: Definition)
    requires n !in a
    ensures a[n := d] + t == if n in t then a + t else (a + t)[n := d]
  {
  }

  lemma {:induction false} RemovedOne(t: Table, gone: set<string>, n: string)
    ensures t - gone - {n} == t - (gone + {n})
  {
  }

  /** Some desired column is missing and the database does not add it. */
  ghost predicate AnyRefused(db: DatabaseType, table: Table, desired: seq<Definition>) {
    exists d | d in desired :: d.name !in table && Refuses(db, d)
  }

  lemma {:induction false} RefusedStep(db: DatabaseType, table: Table, init: seq<Definition>, d: Definition)
    ensures AnyRefused(db, table, init + [d]) <==> AnyRefused(db, table, init) || (d.name !in table && Refuses(db, d))
  {
    hide Refuses;
    assert forall c :: c in init + [d] <==> c in init || c == d;
  }

  lemma {:induction false} NothingAdded(db: DatabaseType, table: Table)
    ensures ExecuteAll(db, table, Adds(table, [])) == Some(TableOf([]) + table)
    ensures !AnyRefused(db, table, [])
  {
    assert map[] + table == table;
  }

  lemma {:induction false} InitDistinct(columns: seq<Definition>)
    requires DistinctNames(columns) && columns != []
    ensures DistinctNames(columns[..|columns| - 1])
  {
  }

  /** First phase: missing columns added, nothing else touched, unless one is refused. */
  lemma {:induction false} AddsExtend(db: DatabaseType, table: Table, desired: seq<Definition>, fmt: Format)
    requires DistinctNames(desired)
    ensures ExecuteAll(db, table, Adds(table, desired)) ==
            if AnyRefused(db, table, desired) then None else Some(TableOf(desired) + table)
    decreases desired
  {
    hide TableOf, Adds, ExecuteAll, Refuses, AnyRefused, DistinctNames;
    if desired == [] {
      NothingAdded(db, table);
    } else {
      var n := |desired| - 1;
      var init, d := desired[..n], desired[n];
      InitDistinct(desired);
      AddsExtend(db, table, init, fmt);
      LastIsNew(desired);
      LastStep(table, desired, map[], fmt);
      AddedOne(TableOf(init), table, d.name, d);
      ExecuteOne(db, table, Adds(table, init), AddColumn(d));
      RefusedStep(db, table, init, d);
      assert desired == init + [d];
    }
  }

  function Unwanted(current: seq<Definition>, desired: Table): set<string> {
    set c | c in current && c.name !in desired && !IsSystemColumn(c.name) :: c.name
  }

  /** Second phase: the columns neither desired nor the system's are gone. */
  lemma {:induction false} DropsTrim(table: Table, current: seq<Definition>, desired: Table, fmt: Format)
    requires DistinctNames(current) && forall i | 0 <= i < |current| :: current[i].name in table
    ensures ExecuteAll(MySQLDb, table, Drops(current, desired)) == Some(table - Unwanted(current, desired))
    decreases current
  {
    if current == [] {
      assert Unwanted(current, desired) == {} && table - {} == table;
    } else {
      hide TableOf, Drops, ExecuteAll, Unwanted;
      var n := |current| - 1;
      var init, c := current[..n], current[n];
      LastIsNew(current);
      LastStep(table, current, desired, fmt);
      DropsTrim(table, init, desired, fmt);
      UnwantedOne(init, c, desired);
      assert init + [c] == current;
      hide IsSystemColumn;
      RemovedOne(table, Unwanted(init, desired), c.name);
      ExecuteOne(MySQLDb, table, Drops(init, desired), DropColumn(c));
    }
  }

  lemma {:induction false} UnwantedOne(init: seq<Definition>, c: Definition, desired: Table)
    ensures Unwanted(init + [c], desired) ==
            if c.name in desired || IsSystemColumn(c.name) then Unwanted(init, desired)
            else Unwanted(init, desired) + {c.name}
    ensures c.name !in TableOf(init) ==> c.name !in Unwanted(init, desired)
  {
    TableOfNames(init, c.name);
    assert forall d :: d in init + [c] <==> d in init || d == c;
  }

  function Changed(table: Table, current: Table, desired: Table, fmt: Format): Table {
    map name | name in table ::
      if name in current && name in desired && NeedsModification(current[name], desired[name], fmt) then desired[name]
      else table[name]
  }

  /** Third phase: the desired columns that differ get their definitions. */
  lemma {:induction false} ModifiesModify(table: Table, current: Table, desired: seq<Definition>, fmt: Format)
    requires DistinctNames(desired) && forall i | 0 <= i < |desired| :: desired[i].name in table
    ensures ExecuteAll(MySQLDb, table, Modifies(current, desired, fmt)) ==
      Some(Changed(table, current, TableOf(desired), fmt))
    decreases desired
  {
    hide NeedsModification;
    if desired == [] {
      assert Changed(table, current, map[], fmt) == table;
    } else {
      hide TableOf, Modifies, ExecuteAll;
      var n := |desired| - 1;
      var init, d := desired[..n], desired[n];
      LastIsNew(desired);
      LastStep(current, desired, map[], fmt);
      ModifiesModify(table, current, init, fmt);
      ChangedOne(table, current, TableOf(init), fmt, d);
      hide Changed;
      ExecuteOne(MySQLDb, table, Modifies(current, init, fmt),
                 ModifyColumn(d, if d.name in current then current[d.name] else d));
    }
  }

  lemma {:induction false} ChangedOne(table: Table, current: Table, desired: Table, fmt: Format, d: Definition)
    requires d.name !in desired && d.name in table
    ensures Changed(table, current, desired[d.name := d], fmt) ==
            if d.name in current && NeedsModification(current[d.name], d, fmt)
              then Changed(table, current, desired, fmt)[d.name := d]
            else Changed(table, current, desired, fmt)
    ensures d.name in Changed(table, current, desired, fmt)
  {
    hide NeedsModification;
  }

  // ---- The whole migration

  /** What a migrated table has: on MySQL every desired column as desired and no
      others but the system's, on SQLite the old columns and the missing ones. */
  ghost predicate Migrated(db: DatabaseType, fmt: Format, table: Table, desired: seq<Definition>, after: Table) {
    && (forall d | d in desired :: d.name in after)
    && (forall name | name in table && name in {"id", "created_at", "updated_at", "data"} :: name in after)
    && (forall name | name in after && name !in table :: after[name] in desired)
    && if db.SQLiteDb? then forall name | name in table :: name in after && after[name] == table[name]
       else
         && (forall d | d in desired && d.name in after ::
             after[d.name].name == d.name && Alike(after[d.name], d, fmt))
         && (forall name | name in after && !Lists(desired, name) ::
             name in {"id", "created_at", "updated_at", "data"} && name in table && after[name] == table[name])
  }

  lemma {:induction false} NoModification(d: Definition, fmt: Format)
    ensures !NeedsModification(d, d, fmt)
  {
  }

  /** The generated migrations are all accepted, in order, exactly when no missing
      column is refused, and then they migrate the table. */
  lemma {:induction false} MigrationsMigrate(db: DatabaseType, fmt: Format, current: seq<Definition>,
                                             desired: seq<Definition>)
    requires DistinctNames(current) && DistinctNames(desired)
    ensures var r := ExecuteAll(db, TableOf(current), Migrations(db, fmt, current, desired));
      && (r.Some? <==> !AnyRefused(db, TableOf(current), desired))
      && (r.Some? ==> Migrated(db, fmt, TableOf(current), desired, r.value))
  {
    hide NeedsModification, Migrated, Changed, Unwanted, TableOf, Adds, Drops, Modifies, ExecuteAll;
    var table, want := TableOf(current), TableOf(desired);
    AddsExtend(db, table, desired, fmt);
    if db.SQLiteDb? {
      assert Migrations(db, fmt, current, desired) == Adds(table, desired);
      ExtendedMigrates(db, fmt, table, desired);
    } else {
      assert !AnyRefused(db, table, desired);
      var drops, changes := Drops(current, want), Modifies(table, desired, fmt);
      var added := want + table;
      NamesThere(current, desired);
      DropsTrim(added, current, want, fmt);
      WantedStay(current, want);
      var trimmed := added - Unwanted(current, want);
      ModifiesModify(trimmed, table, desired, fmt);
      ExecuteConcat(db, added, drops, changes);
      ExecuteConcat(db, table, Adds(table, desired), drops + changes);
      PhasesMigrate(fmt, current, desired);
    }
  }

  lemma {:induction false} NamesThere(current: seq<Definition>, desired: seq<Definition>)
    requires DistinctNames(current) && DistinctNames(desired)
    ensures forall i | 0 <= i < |current| :: current[i].name in TableOf(desired) + TableOf(current)
    ensures forall i | 0 <= i < |desired| :: desired[i].name in TableOf(desired)
  {
    hide TableOf;
    forall i | 0 <= i < |current|
      ensures current[i].name in TableOf(current)
    {
      TableOfAt(current, i);
    }
    forall i | 0 <= i < |desired|
      ensures desired[i].name in TableOf(desired)
    {
      TableOfAt(desired, i);
    }
  }

  lemma {:induction false} WantedStay(current: seq<Definition>, desired: Table)
    ensures Unwanted(current, desired) !! desired.Keys
  {
  }

  lemma {:induction false} ExtendedMigrates(db: DatabaseType, fmt: Format, table: Table, desired: seq<Definition>)
    requires db.SQLiteDb?
    ensures Migrated(db, fmt, table, desired, TableOf(desired) + table)
  {
    hide NeedsModification;
    forall d | d in desired
      ensures d.name in TableOf(desired)
    {
      assert Lists(desired, d.name);
      TableOfNames(desired, d.name);
    }
    forall name | name in TableOf(desired)
      ensures TableOf(desired)[name] in desired
    {
      TableOfNames(desired, name);
    }
  }

  /** One name after all three phases. */
  function After(table: Table, want: Table, name: string, fmt: Format): Option<Definition> {
    if name in want && (name in table ==> NeedsModification(table[name], want[name], fmt)) then Some(want[name])
    else if name in table && (name in want || IsSystemColumn(name)) then Some(table[name])
    else None
  }

  lemma {:induction false} PhasesAt(fmt: Format, current: seq<Definition>, want: Table, name: string)
    ensures var table := TableOf(current);
      var after := Changed(want + table - Unwanted(current, want), table, want, fmt);
      After(table, want, name, fmt) == if name in after then Some(after[name]) else None
  {
    hide NeedsModification, TableOf, Unwanted;
    UnwantedAt(current, want, name);
  }

  lemma {:induction false} PhasesMigrate(fmt: Format, current: seq<Definition>, desired: seq<Definition>)
    requires DistinctNames(current) && DistinctNames(desired)
    ensures var table, want := TableOf(current), TableOf(desired);
      Migrated(MySQLDb, fmt, table, desired, Changed(want + table - Unwanted(current, want), table, want, fmt))
  {
    hide NeedsModification, TableOf, Changed, Unwanted;
    var table, want := TableOf(current), TableOf(desired);
    var after := Changed(want + table - Unwanted(current, want), table, want, fmt);
    forall name
      ensures After(table, want, name, fmt) == if name in after then Some(after[name]) else None
      ensures name in want ==> want[name] in desired && Lists(desired, name)
    {
      PhasesAt(fmt, current, want, name);
      TableOfNames(desired, name);
    }
    forall d | d in desired
      ensures d.name in want && want[d.name] == d && !NeedsModification(d, d, fmt)
      ensures d.name in table ==> table[d.name].name == d.name
    {
      var i :| 0 <= i < |desired| && desired[i] == d;
      TableOfAt(desired, i);
      NoModification(d, fmt);
      TableOfNames(current, d.name);
    }
    AfterMigrates(fmt, table, want, desired, after);
  }

  lemma {:induction false} AfterMigrates(fmt: Format, table: Table, want: Table, desired: seq<Definition>, after: Table)
    requires forall name ::
      && After(table, want, name, fmt) == (if name in after then Some(after[name]) else None)
      && (name in want ==> want[name] in desired && Lists(desired, name))
    requires forall d | d in desired ::
      && d.name in want && want[d.name] == d && !NeedsModification(d, d, fmt)
      && (d.name in table ==> table[d.name].name == d.name)
    ensures Migrated(MySQLDb, fmt, table, desired, after)
  {
    hide NeedsModification, Alike;
    forall d | d in desired
      ensures d.name in after && after[d.name].name == d.name && Alike(after[d.name], d, fmt)
    {
      assert After(table, want, d.name, fmt).Some?;
      ModifiedUnlessAlike(after[d.name], d, fmt);
    }
    forall name | name in after && !Lists(desired, name)
      ensures name in {"id", "created_at", "updated_at", "data"} && name in table && after[name] == table[name]
    {
      SystemColumnNames(name);
      assert After(table, want, name, fmt) == Some(after[name]);
    }
    forall name | name in after && name !in table
      ensures after[name] in desired
    {
      assert After(table, want, name, fmt) == Some(after[name]);
    }
    forall name | name in table && name in {"id", "created_at", "updated_at", "data"}
      ensures name in after
    {
      SystemColumnNames(name);
      assert After(table, want, name, fmt).Some?;
    }
  }

  lemma {:induction false} UnwantedAt(current: seq<Definition>, desired: Table, name: string)
    ensures name in Unwanted(current, desired) <==>
            name in TableOf(current) && name !in desired && !IsSystemColumn(name)
  {
    TableOfNames(current, name);
  }

  /** On the table by definitions, a second generation has nothing left to do. */
  lemma {:induction false} SecondGenerationEmpty(db: DatabaseType, fmt: Format, table: Table, desired: seq<Definition>,
                                                 again: seq<Definition>)
    requires DistinctNames(again) && Migrated(db, fmt, table, desired, TableOf(again))
    ensures Migrations(db, fmt, again, desired) == []
  {
    hide NeedsModification;
    NothingToAdd(TableOf(again), desired);
    if db.MySQLDb? {
      forall i | 0 <= i < |again|
        ensures again[i].name in TableOf(desired) || IsSystemColumn(again[i].name)
      {
        TableOfAt(again, i);
        TableOfNames(desired, again[i].name);
        SystemColumnNames(again[i].name);
      }
      NothingToDrop(again, TableOf(desired));
      NothingToModify(TableOf(again), desired, fmt);
    }
  }

  lemma {:induction false} NothingToAdd(current: Table, desired: seq<Definition>)
    requires forall d | d in desired :: d.name in current
    ensures Adds(current, desired) == []
    decreases desired
  {
    if desired != [] {
      NothingToAdd(current, desired[..|desired| - 1]);
    }
  }

  lemma {:induction false} NothingToDrop(current: seq<Definition>, desired: Table)
    requires forall i | 0 <= i < |current| :: current[i].name in desired || IsSystemColumn(current[i].name)
    ensures Drops(current, desired) == []
    decreases current
  {
    if current != [] {
      NothingToDrop(current[..|current| - 1], desired);
    }
  }

  lemma {:induction false} NothingToModify(current: Table, desired: seq<Definition>, fmt: Format)
    requires forall d | d in desired :: d.name in current && Alike(current[d.name], d, fmt)
    ensures Modifies(current, desired, fmt) == []
    decreases desired
  {
    hide NeedsModification, Alike;
    if desired != [] {
      var d := desired[|desired| - 1];
      ModifiedUnlessAlike(current[d.name], d, fmt);
      NothingToModify(current, desired[..|desired| - 1], fmt);
    }
  }

  // ---- Reading a MySQL table back

  /** The data type MySQL reports for the type a column is created with. */
  function DataType(kind: ColumnType): string {
    match kind
    case TextColumn => "varchar"
    case IntegerColumn => "bigint"
    case RealColumn => "double"
    case BooleanColumn => "tinyint"
    case DateColumn => "datetime"
    case JsonColumn => "json"
  }

  function MapMySQLType(t: string): ColumnType {
    if t == "varchar" || t == "text" || t == "char" then TextColumn
    else if t == "int" || t == "bigint" || t == "smallint" then IntegerColumn
    else if t == "float" || t == "double" || t == "decimal" then RealColumn
    else if t == "tinyint" then BooleanColumn
    else if t == "datetime" || t == "timestamp" then DateColumn
    else if t == "json" then JsonColumn
    else TextColumn
  }

  lemma {:induction false} TypeRoundTrip(kind: ColumnType)
    ensures MapMySQLType(DataType(kind)) == kind
  {
  }

  /** The text of a column's default, as its definition declares it. */
  function DefaultText(d: Definition, fmt: Format): Option<string> {
    if DefaultsToNow(d) then Some("CURRENT_TIMESTAMP")
    else if d.default.None? then None
    else
      match d.default.value
      case Str(s) => Some(s)
      case Bool(b) => Some(if b then "1" else "0")
      case v => Some(fmt(v))
  }

  /** getTableColumns on a column created from a definition: a primary key is NOT
      NULL whatever was asked, and a default is known by its text only. */
  function ReadBackColumn(d: Definition, fmt: Format): Definition {
    var text := DefaultText(d, fmt);
    Definition(d.name, MapMySQLType(DataType(d.kind)), d.required || d.primary,
               if text.Some? then Some(Str(text.value)) else None, false, d.primary, false)
  }

  function ReadBackAll(columns: seq<Definition>, fmt: Format): (r: seq<Definition>)
    ensures |r| == |columns|
    ensures forall i | 0 <= i < |columns| :: r[i] == ReadBackColumn(columns[i], fmt)
  {
    seq(|columns|, i requires 0 <= i < |columns| => ReadBackColumn(columns[i], fmt))
  }

  ghost predicate PrintsPlainly(fmt: Format) {
    (forall s :: fmt(Str(s)) == s) && fmt(Bool(true)) == "true" && fmt(Bool(false)) == "false"
  }

  /** The definitions MySQL gives back unchanged. */
  predicate Stable(d: Definition, fmt: Format) {
    && (d.primary ==> d.required)
    && (if d.timestamp then d.default.Some? && fmt(d.default.value) == "CURRENT_TIMESTAMP"
        else d.default.Some? ==> !d.default.value.Bool? && !(d.default.value == Str("now") && d.kind.DateColumn?))
  }

  lemma {:induction false} StableExactly(d: Definition, fmt: Format)
    requires PrintsPlainly(fmt)
    ensures Alike(ReadBackColumn(d, fmt), d, fmt) <==> Stable(d, fmt)
  {
    TypeRoundTrip(d.kind);
    var text := DefaultText(d, fmt);
    if text.Some? {
      assert fmt(Str(text.value)) == text.value;
    }
    if d.default.Some? && d.default.value.Str? {
      assert fmt(Str(d.default.value.s)) == d.default.value.s;
    }
  }

  /** Read back from MySQL, the very columns just created are migrated again unless
      every definition is stable. */
  lemma {:induction false} ReadBackSettles(columns: seq<Definition>, fmt: Format)
    requires DistinctNames(columns) && PrintsPlainly(fmt)
    ensures Migrations(MySQLDb, fmt, ReadBackAll(columns, fmt), columns) == []
            <==> forall d | d in columns :: Stable(d, fmt)
  {
    hide Stable, NeedsModification, Alike, ReadBackColumn, Adds, Drops, Modifies;
    var read := ReadBackAll(columns, fmt);
    var table := TableOf(read);
    NamesReadBack(columns, fmt);
    forall d | d in columns
      ensures d.name in table && table[d.name] == ReadBackColumn(d, fmt)
      ensures Alike(table[d.name], d, fmt) <==> Stable(d, fmt)
    {
      var i :| 0 <= i < |columns| && columns[i] == d;
      TableOfAt(read, i);
      StableExactly(d, fmt);
    }
    NothingToAdd(table, columns);
    forall i | 0 <= i < |read|
      ensures read[i].name in TableOf(columns)
    {
      TableOfAt(columns, i);
    }
    NothingToDrop(read, TableOf(columns));
    if forall d | d in columns :: Stable(d, fmt) {
      NothingToModify(table, columns, fmt);
    } else {
      var d :| d in columns && !Stable(d, fmt);
      SomethingToModify(table, columns, fmt, d);
    }
  }

  lemma {:induction false} NamesReadBack(columns: seq<Definition>, fmt: Format)
    requires DistinctNames(columns)
    ensures DistinctNames(ReadBackAll(columns, fmt))
    ensures forall i | 0 <= i < |columns| :: ReadBackAll(columns, fmt)[i].name == columns[i].name
  {
  }

  lemma {:induction false} SomethingToModify(current: Table, desired: seq<Definition>, fmt: Format, d: Definition)
    requires d in desired && d.name in current && !Alike(current[d.name], d, fmt)
    ensures Modifies(current, desired, fmt) != []
    decreases desired
  {
    hide NeedsModification, Alike;
    ModifiedUnlessAlike(current[d.name], d, fmt);
    var n := |desired| - 1;
    if d != desired[n] {
      assert d in desired[..n];
      SomethingToModify(current, desired[..n], fmt, d);
    }
  }

  /** The columns every collection has: the two timestamps are declared without a
      default and read back with one, so they are modified every time. */
  lemma {:induction false} TimestampsNeverSettle(columns: seq<Definition>, fmt: Format, d: Definition)
    requires DistinctNames(columns) && PrintsPlainly(fmt)
    requires d in columns && d.timestamp && d.default.None?
    ensures Migrations(MySQLDb, fmt, ReadBackAll(columns, fmt), columns) != []
  {
    ReadBackSettles(columns, fmt);
    assert !Stable(d, fmt);
  }
}
