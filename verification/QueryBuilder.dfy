/** The query builder pipeline: conditions become a map, the map becomes
    conditions again in whatever order, and these become a WHERE text. */
module QueryBuilder {
  import opened Values
  import opened Sql
  import opened Emission
  import opened Truth
  import opened QueryMeaning
  import Patterns

  datatype Condition = Condition(field: string, op: string, value: Value)

  datatype SqlOp = SqlCompare(c: CompareOp) | SqlIn | SqlNotIn | SqlLike | SqlNotNull

  /** convertOperator: an unknown operator is taken for equality. */
  function ConvertOperator(op: string): SqlOp {
    match op
    case "$ne" => SqlCompare(Ne)
    case "!=" => SqlCompare(Ne)
    case "$gt" => SqlCompare(Gt)
    case ">" => SqlCompare(Gt)
    case "$gte" => SqlCompare(Ge)
    case ">=" => SqlCompare(Ge)
    case "$lt" => SqlCompare(Lt)
    case "<" => SqlCompare(Lt)
    case "$lte" => SqlCompare(Le)
    case "<=" => SqlCompare(Le)
    case "$in" => SqlIn
    case "$nin" => SqlNotIn
    case "$regex" => SqlLike
    case "$exists" => SqlNotNull
    case _ => SqlCompare(Eq)
  }

  predicate IsEquality(op: string) {
    op == "$eq" || op == "="
  }

  // ---- Conditions to a map

  /** One round of ToMap's loop: equality replaces what the field had, another
      operator joins an object that is there or else replaces. */
  function AddToMap(m: map<string, Value>, c: Condition): map<string, Value> {
    if IsEquality(c.op) then m[c.field := c.value]
    else if c.field in m && m[c.field].Obj? then m[c.field := Obj(m[c.field].fields[c.op := c.value])]
    else m[c.field := Obj(map[c.op := c.value])]
  }

  function MapOf(cs: seq<Condition>): map<string, Value> {
    if cs == [] then map[] else AddToMap(MapOf(cs[..|cs| - 1]), cs[|cs| - 1])
  }

  /** A group becomes a map of its own, in which the last condition on a field wins. */
  function GroupMap(group: seq<Condition>): map<string, Value> {
    if group == [] then map[]
    else
      var c := group[|group| - 1];
      GroupMap(group[..|group| - 1])[c.field := if IsEquality(c.op) then c.value else Obj(map[c.op := c.value])]
  }

  /** What a group's map has under a field is the last condition on it. */
  lemma {:induction false} LastInGroup(group: seq<Condition>, f: string, k: nat)
    requires LastOn(group, f, k)
    ensures f in GroupMap(group)
    ensures GroupMap(group)[f] ==
            if group[k].op == "$eq" || group[k].op == "=" then group[k].value
            else Obj(map[group[k].op := group[k].value])
    decreases group
  {
    var n := |group| - 1;
    if k < n {
      assert LastOn(group[..n], f, k);
      LastInGroup(group[..n], f, k);
    }
  }

  function GroupMaps(groups: seq<seq<Condition>>): seq<Value> {
    if groups == [] then [] else GroupMaps(groups[..|groups| - 1]) + [Obj(GroupMap(groups[|groups| - 1]))]
  }

  function WithGroups(m: map<string, Value>, groups: seq<seq<Condition>>): map<string, Value> {
    if groups == [] then m else m["$or" := Arr(GroupMaps(groups))]
  }

  // ---- What a map says, and which conditions survive in it

  /** The conditions a map stands for; names of operators at the top are skipped. */
  predicate InMap(m: map<string, Value>, c: Condition) {
    c.field in m && !IsOperator(c.field) && InEntry(m[c.field], c)
  }

  predicate InEntry(v: Value, c: Condition) {
    if v.Obj? then c.op in v.fields && c.value == v.fields[c.op]
    else c.op == "$eq" && c.value == v
  }

  /** The conditions one condition contributes: an equality with an object
      contributes the object's operators. */
  predicate Contributes(source: Condition, c: Condition) {
    c.field == source.field &&
    if IsEquality(source.op) then InEntry(source.value, c) else c == source
  }

  /** Does a later condition on the field undo what `source` contributed as `c`? */
  predicate Undoes(later: Condition, source: Condition, c: Condition) {
    later.field == c.field &&
    (IsEquality(later.op) || later.op == c.op || (IsEquality(source.op) && !source.value.Obj?))
  }

  ghost predicate Survives(cs: seq<Condition>, c: Condition) {
    !IsOperator(c.field) &&
    exists i | 0 <= i < |cs| :: Contributes(cs[i], c) && forall j | i < j < |cs| :: !Undoes(cs[j], cs[i], c)
  }

  /** The last condition on a field, if any. */
  ghost predicate LastOn(cs: seq<Condition>, f: string, k: nat) {
    k < |cs| && cs[k].field == f && forall j | k < j < |cs| :: cs[j].field != f
  }

  /** An entry is a plain value exactly when the last condition on the field is an
      equality with one. */
  lemma {:induction false} PlainEntry(cs: seq<Condition>, f: string)
    ensures f in MapOf(cs) && !MapOf(cs)[f].Obj? <==>
            exists k: nat :: LastOn(cs, f, k) && IsEquality(cs[k].op) && !cs[k].value.Obj?
    decreases cs
  {
    if cs != [] {
      var n := |cs| - 1;
      var init := cs[..n];
      PlainEntry(init, f);
      if cs[n].field == f {
        assert LastOn(cs, f, n);
      } else {
        forall k: nat
          ensures LastOn(cs, f, k) <==> LastOn(init, f, k)
        {
          if LastOn(cs, f, k) {
            assert forall j | k < j < n :: init[j] == cs[j];
          }
        }
        assert forall k | 0 <= k < n :: init[k] == cs[k];
      }
    }
  }

  lemma {:induction false} PlainSource(cs: seq<Condition>, f: string, i: nat, c: Condition)
    requires i < |cs| && Contributes(cs[i], c) && c.field == f
    requires forall j | i < j < |cs| :: !Undoes(cs[j], cs[i], c)
    ensures IsEquality(cs[i].op) && !cs[i].value.Obj? <==> f in MapOf(cs) && !MapOf(cs)[f].Obj?
  {
    PlainEntry(cs, f);
    if IsEquality(cs[i].op) && !cs[i].value.Obj? {
      assert LastOn(cs, f, i);
    }
  }

  lemma {:induction false} SurvivorStays(cs: seq<Condition>, last: Condition, c: Condition)
    requires Survives(cs, c) ==> InMap(MapOf(cs), c)
    requires Survives(cs + [last], c)
    ensures InMap(AddToMap(MapOf(cs), last), c)
  {
    var all := cs + [last];
    var n := |cs|;
    var i :| 0 <= i < |all| && Contributes(all[i], c) && forall j | i < j < |all| :: !Undoes(all[j], all[i], c);
    if i < n {
      assert Contributes(cs[i], c);
      assert forall j | i < j < n :: cs[j] == all[j] && !Undoes(cs[j], cs[i], c);
      assert !Undoes(all[n], all[i], c);
      PlainSource(cs, c.field, i, c);
    }
  }

  lemma {:induction false} MappedSurvives(cs: seq<Condition>, last: Condition, c: Condition)
    requires InMap(MapOf(cs), c) ==> Survives(cs, c)
    requires InMap(AddToMap(MapOf(cs), last), c)
    ensures Survives(cs + [last], c)
  {
    var all := cs + [last];
    var n := |cs|;
    if last.field == c.field && (IsEquality(last.op) || last.op == c.op) {
      assert Contributes(all[n], c);
    } else {
      var i :| 0 <= i < n && Contributes(cs[i], c) && forall j | i < j < n :: !Undoes(cs[j], cs[i], c);
      PlainSource(cs, c.field, i, c);
      assert Contributes(all[i], c) && !Undoes(last, all[i], c);
      assert forall j | i < j < |all| :: !Undoes(all[j], all[i], c);
    }
  }

  /** The map stands for exactly the conditions that no later one on their field undoes. */
  lemma {:induction false} MapKeepsSurvivors(cs: seq<Condition>, c: Condition)
    ensures InMap(MapOf(cs), c) <==> Survives(cs, c)
    decreases cs
  {
    if cs != [] {
      var init, last := cs[..|cs| - 1], cs[|cs| - 1];
      MapKeepsSurvivors(init, c);
      assert cs == init + [last];
      if Survives(cs, c) {
        SurvivorStays(init, last, c);
      }
      if InMap(MapOf(cs), c) {
        MappedSurvives(init, last, c);
      }
    }
  }

  lemma {:induction false} GroupsNotInMap(m: map<string, Value>, groups: seq<seq<Condition>>, c: Condition)
    ensures InMap(WithGroups(m, groups), c) <==> InMap(m, c)
  {
    assert IsOperator("$or");
  }

  // ---- The map back to conditions

  /** `cs` are the conditions of a map, each once, in some order. */
  ghost predicate Lists(cs: seq<Condition>, m: map<string, Value>) {
    && (forall i, j | 0 <= i < j < |cs| :: cs[i] != cs[j])
    && (forall c :: c in cs <==> InMap(m, c))
  }

  /** The conditions of the entries of a map whose fields are in `done`. */
  ghost predicate ListsSome(cs: seq<Condition>, m: map<string, Value>, done: set<string>) {
    && (forall i, j | 0 <= i < j < |cs| :: cs[i] != cs[j])
    && (forall c :: c in cs <==> InMap(m, c) && c.field in done)
  }

  // ---- Conditions to text

  function RegexText(v: Value, fmt: Format): string {
    if v.Str? then Patterns.LikeText(v.s) else fmt(v)
  }

  /** The factor for one condition; an `$in` without an array is left out. */
  function ConditionFactors(c: Condition, ref: Ref, fmt: Format): seq<Factor> {
    match ConvertOperator(c.op)
    case SqlCompare(op) => [Factor(false, Test(Compare(ref, op, c.value)))]
    case SqlIn => if c.value.IsArray() then [Factor(false, Test(In(ref, false, c.value.Elements())))] else []
    case SqlNotIn => if c.value.IsArray() then [Factor(false, Test(In(ref, true, c.value.Elements())))] else []
    case SqlLike => [Factor(false, Test(Predicate.Like(ref, Str(RegexText(c.value, fmt)))))]
    case SqlNotNull => [Factor(false, Test(NullTest(ref, true)))]
  }

  /** An empty list makes Go slice out of bounds. */
  predicate SlicesEmpty(c: Condition) {
    (ConvertOperator(c.op).SqlIn? || ConvertOperator(c.op).SqlNotIn?) &&
    c.value.IsArray() && c.value.Elements() == []
  }

  predicate Panics(c: Condition) {
    (c.op == "$in" || c.op == "$nin") && c.value.IsArray() && c.value.Elements() == []
  }

  lemma {:induction false} PanicsOnEmpty(c: Condition)
    ensures SlicesEmpty(c) <==> Panics(c)
  {
  }

  /** getFieldReference: a column if the store has one, else a path into the JSON. */
  function RefOf(columns: set<string>, field: string): Ref {
    if field in columns then Column(field) else JsonPath(field)
  }

  function FactorsOf(cs: seq<Condition>, columns: set<string>, fmt: Format): seq<Factor> {
    if cs == [] then []
    else
      var last := cs[|cs| - 1];
      FactorsOf(cs[..|cs| - 1], columns, fmt) + ConditionFactors(last, RefOf(columns, last.field), fmt)
  }

  lemma {:induction false} QuestionsOnly(i: nat, j: nat, n: nat)
    ensures PlaceholderTexts(SQLite, i, n) == PlaceholderTexts(SQLite, j, n)
  {
    forall k: nat | k < n
      ensures PlaceholderTexts(SQLite, i, n)[k] == PlaceholderTexts(SQLite, j, n)[k]
    {
      assert Placeholder(SQLite, i + k) == Placeholder(SQLite, j + k);
    }
  }

  // ---- OR groups

  /** The alternatives of a group; conditions without text are left out. */
  function GroupTerms(group: seq<Condition>, columns: set<string>, fmt: Format): seq<Term> {
    if group == [] then []
    else
      var last := group[|group| - 1];
      var fs := ConditionFactors(last, RefOf(columns, last.field), fmt);
      var terms := GroupTerms(group[..|group| - 1], columns, fmt);
      if fs == [] then terms else terms + [Term(fs)]
  }

  function GroupFactors(group: seq<Condition>, columns: set<string>, fmt: Format): seq<Factor> {
    var terms := GroupTerms(group, columns, fmt);
    if terms == [] then [] else [Factor(false, Paren(Search(terms)))]
  }

  function GroupsFactors(groups: seq<seq<Condition>>, columns: set<string>, fmt: Format): seq<Factor> {
    if groups == [] then []
    else GroupsFactors(groups[..|groups| - 1], columns, fmt) + GroupFactors(groups[|groups| - 1], columns, fmt)
  }

  predicate PanicsAny(cs: seq<Condition>) {
    exists i | 0 <= i < |cs| :: Panics(cs[i])
  }

  lemma {:induction false} SomePanic(cs: seq<Condition>)
    ensures (exists i | 0 <= i < |cs| :: SlicesEmpty(cs[i])) <==> PanicsAny(cs)
  {
    forall i | 0 <= i < |cs|
      ensures SlicesEmpty(cs[i]) <==> Panics(cs[i])
    {
      PanicsOnEmpty(cs[i]);
    }
  }

  lemma {:induction false} EmptyGroups(groups: seq<seq<Condition>>, columns: set<string>, fmt: Format)
    requires forall g | g in groups :: g == []
    ensures GroupsFactors(groups, columns, fmt) == []
    decreases groups
  {
    if groups != [] {
      var init, last := groups[..|groups| - 1], groups[|groups| - 1];
      assert last in groups && forall g | g in init :: g in groups;
      EmptyGroups(init, columns, fmt);
    }
  }

  /** Some alternative with a text is true, or all are false. */
  lemma {:induction false} GroupCases(group: seq<Condition>, columns: set<string>, fmt: Format, row: Row, db: Database)
    ensures var v := EvalSearch(GroupTerms(group, columns, fmt), row, db);
      && (v == T <==> exists c | c in group :: HasText(c) && Verdict(c, columns, fmt, row, db) == T)
      && (v == F <==> forall c | c in group && HasText(c) :: Verdict(c, columns, fmt, row, db) == F)
    decreases group
  {
    hide ConditionFactors, Verdict, RefOf;
    if group != [] {
      var init, last := group[..|group| - 1], group[|group| - 1];
      GroupCases(init, columns, fmt, row, db);
      GroupStep(init, last, columns, fmt, row, db);
      assert group == init + [last];
      assert forall c :: c in group <==> c in init || c == last;
    }
  }

  predicate HasText(c: Condition) {
    ConvertOperator(c.op).SqlIn? || ConvertOperator(c.op).SqlNotIn? ==> c.value.IsArray()
  }

  lemma {:induction false} GroupStep(init: seq<Condition>, last: Condition, columns: set<string>, fmt: Format,
                                     row: Row, db: Database)
    ensures EvalSearch(GroupTerms(init + [last], columns, fmt), row, db) ==
            if HasText(last)
            then Disj(EvalSearch(GroupTerms(init, columns, fmt), row, db), Verdict(last, columns, fmt, row, db))
            else EvalSearch(GroupTerms(init, columns, fmt), row, db)
  {
    assert (init + [last])[..|init|] == init;
    TextHasFactors(last, RefOf(columns, last.field), fmt);
    hide ConditionFactors, RefOf, HasText, EvalSearch, EvalTerm;
    var fs := ConditionFactors(last, RefOf(columns, last.field), fmt);
    if fs != [] {
      EvalSearchConcat(GroupTerms(init, columns, fmt), [Term(fs)], row, db);
      EvalOneTerm(fs, row, db);
    }
  }

  lemma {:induction false} TextHasFactors(c: Condition, ref: Ref, fmt: Format)
    ensures ConditionFactors(c, ref, fmt) != [] <==> HasText(c)
  {
  }

  // ---- What the whole pipeline means

  /** The truth value of one condition's text on a row. */
  ghost function Verdict(c: Condition, columns: set<string>, fmt: Format, row: Row, db: Database): TV {
    EvalTerm(ConditionFactors(c, RefOf(columns, c.field), fmt), row, db)
  }

  lemma {:induction false} FactorsStep(init: seq<Condition>, last: Condition, columns: set<string>, fmt: Format,
                                       row: Row, db: Database)
    ensures EvalTerm(FactorsOf(init + [last], columns, fmt), row, db) ==
            Conj(EvalTerm(FactorsOf(init, columns, fmt), row, db), Verdict(last, columns, fmt, row, db))
  {
    hide ConditionFactors, RefOf, EvalTerm;
    assert (init + [last])[..|init|] == init;
    EvalTermConcat(FactorsOf(init, columns, fmt), ConditionFactors(last, RefOf(columns, last.field), fmt), row, db);
  }

  lemma {:induction false} FactorsCases(cs: seq<Condition>, columns: set<string>, fmt: Format, row: Row, db: Database)
    ensures var v := EvalTerm(FactorsOf(cs, columns, fmt), row, db);
      && (v == T <==> forall c | c in cs :: Verdict(c, columns, fmt, row, db) == T)
      && (v == F <==> exists c | c in cs :: Verdict(c, columns, fmt, row, db) == F)
    decreases cs
  {
    hide ConditionFactors, RefOf, Verdict;
    if cs != [] {
      var init, last := cs[..|cs| - 1], cs[|cs| - 1];
      FactorsCases(init, columns, fmt, row, db);
      FactorsStep(init, last, columns, fmt, row, db);
      assert cs == init + [last];
      assert forall c :: c in cs <==> c in init || c == last;
    }
  }

  /** Every list of conditions, with whatever is lost in the map: the text is true
      where all surviving conditions are, and false where one of them is. */
  ghost predicate ConjoinsSurvivors(cs: seq<Condition>, v: TV, columns: set<string>, fmt: Format, row: Row,
                                    db: Database)
  {
    && (v == T <==> forall c | Survives(cs, c) :: Verdict(c, columns, fmt, row, db) == T)
    && (v == F <==> exists c | Survives(cs, c) :: Verdict(c, columns, fmt, row, db) == F)
  }

  lemma {:induction false} PipelineConjoins(cs: seq<Condition>, listed: seq<Condition>, columns: set<string>,
                                            fmt: Format, row: Row, db: Database)
    requires Lists(listed, MapOf(cs))
    ensures ConjoinsSurvivors(cs, EvalTerm(FactorsOf(listed, columns, fmt), row, db), columns, fmt, row, db)
  {
    FactorsCases(listed, columns, fmt, row, db);
    forall c
      ensures c in listed <==> Survives(cs, c)
    {
      MapKeepsSurvivors(cs, c);
    }
  }

  /** The WHERE text of the pipeline, whatever the map orders. */
  ghost predicate WhereConjoins(cs: seq<Condition>, text: seq<Token>, args: seq<Value>, columns: set<string>,
                                fmt: Format)
  {
    forall row, db ::
      var w := Where(text, args, row, db);
      w.Some? && ConjoinsSurvivors(cs, w.value, columns, fmt, row, db)
  }

  lemma {:induction false} PrintedConjoins(cs: seq<Condition>, listed: seq<Condition>, text: seq<Token>,
                                           args: seq<Value>, columns: set<string>, fmt: Format)
    requires Lists(listed, MapOf(cs)) && Prints(SQLite, 1, FactorsOf(listed, columns, fmt), text, args, 1 + |args|)
    ensures WhereConjoins(cs, text, args, columns, fmt)
  {
    forall row, db
      ensures var w := Where(text, args, row, db);
        w.Some? && ConjoinsSurvivors(cs, w.value, columns, fmt, row, db)
    {
      WhereIsTerm(SQLite, FactorsOf(listed, columns, fmt), text, args, 1 + |args|, row, db);
      PipelineConjoins(cs, listed, columns, fmt, row, db);
    }
  }

  ghost predicate SurvivorPanics(cs: seq<Condition>) {
    exists c :: Survives(cs, c) && Panics(c)
  }

  lemma {:induction false} ListedPanics(cs: seq<Condition>, listed: seq<Condition>)
    requires Lists(listed, MapOf(cs))
    ensures SurvivorPanics(cs) <==> exists i | 0 <= i < |listed| :: Panics(listed[i])
  {
    forall c
      ensures c in listed <==> Survives(cs, c)
    {
      MapKeepsSurvivors(cs, c);
    }
    if SurvivorPanics(cs) {
      var c :| Survives(cs, c) && Panics(c);
      assert c in listed;
    }
  }

  lemma {:induction false} WithoutGroups(listed: seq<Condition>, m: map<string, Value>, groups: seq<seq<Condition>>)
    requires Lists(listed, WithGroups(m, groups))
    ensures Lists(listed, m)
  {
    forall c
      ensures InMap(WithGroups(m, groups), c) <==> InMap(m, c)
    {
      GroupsNotInMap(m, groups, c);
    }
  }

  /** What a query with OR groups asks for: all surviving conditions, and of every
      group that is not empty an alternative. */
  ghost predicate Asked(cs: seq<Condition>, groups: seq<seq<Condition>>, columns: set<string>, fmt: Format, row: Row,
                        db: Database)
  {
    && (forall c | Survives(cs, c) :: Verdict(c, columns, fmt, row, db) == T)
    && GroupsHold(groups, columns, fmt, row, db)
  }

  ghost predicate GroupsHold(groups: seq<seq<Condition>>, columns: set<string>, fmt: Format, row: Row, db: Database) {
    forall g | g in groups && g != [] :: exists c | c in g :: Verdict(c, columns, fmt, row, db) == T
  }

  /** A list operator without a list, or `$nin` with an empty one. */
  predicate AsksNothing(c: Condition) {
    match ConvertOperator(c.op)
    case SqlIn => !c.value.IsArray()
    case SqlNotIn => !c.value.IsArray() || c.value.Elements() == []
    case _ => false
  }

  lemma {:induction false} NullMember(lits: seq<Value>)
    ensures EvalMember(Null, lits) == if lits == [] then F else U
    decreases lits
  {
    if lits != [] {
      NullMember(lits[1..]);
    }
  }

  /** Such conditions are true on every row, all others only where there is a value. */
  lemma {:induction false} VerdictOnNull(c: Condition, columns: set<string>, fmt: Format, row: Row, db: Database)
    ensures AsksNothing(c) ==> Verdict(c, columns, fmt, row, db) == T
    ensures Fetch(RefOf(columns, c.field), row).Null? && !AsksNothing(c) ==> Verdict(c, columns, fmt, row, db) != T
  {
    hide RegexText, Fetch;
    var fs := ConditionFactors(c, RefOf(columns, c.field), fmt);
    if fs == [] {
      EvalNone(row, db);
    } else {
      EvalOne(fs[0], row, db);
      if c.value.IsArray() {
        NullMember(c.value.Elements());
      }
    }
  }

  /** A condition's truth depends on the value it fetches alone. */
  lemma {:induction false} SameVerdict(c: Condition, columns: set<string>, row: Row, others: set<string>, other: Row,
                                       fmt: Format, db: Database)
    requires Fetch(RefOf(columns, c.field), row) == Fetch(RefOf(others, c.field), other)
    ensures Verdict(c, columns, fmt, row, db) == Verdict(c, others, fmt, other, db)
  {
    hide RegexText, Fetch;
    var a, b := ConditionFactors(c, RefOf(columns, c.field), fmt), ConditionFactors(c, RefOf(others, c.field), fmt);
    if a != [] {
      EvalOne(a[0], row, db);
      EvalOne(b[0], other, db);
    }
  }

  /** What a condition reads of a row: a column, or a field of the JSON. */
  datatype Key = InColumn(name: string) | InData(name: string)

  function KeyOf(columns: set<string>, field: string): Key {
    if field in columns then InColumn(field) else InData(Split(field)[0])
  }

  function Keys(cs: seq<Condition>, columns: set<string>): set<Key> {
    set c | c in cs :: KeyOf(columns, c.field)
  }

  function Cleared(row: Row, keys: set<Key>): Row {
    Row(map k | k in row.cells && InColumn(k) !in keys :: row.cells[k],
        map k | k in row.data && InData(k) !in keys :: row.data[k])
  }

  lemma {:induction false} FetchCleared(columns: set<string>, field: string, row: Row, keys: set<Key>)
    ensures Fetch(RefOf(columns, field), Cleared(row, keys)) ==
            if KeyOf(columns, field) in keys then Null else Fetch(RefOf(columns, field), row)
  {
  }

  /** With its keys cleared a condition is not true, without them nothing changes. */
  lemma {:induction false} VerdictCleared(c: Condition, columns: set<string>, fmt: Format, row: Row, db: Database,
                                          keys: set<Key>)
    ensures KeyOf(columns, c.field) in keys && !AsksNothing(c) ==>
      Verdict(c, columns, fmt, Cleared(row, keys), db) != T
    ensures KeyOf(columns, c.field) !in keys ==>
      Verdict(c, columns, fmt, Cleared(row, keys), db) == Verdict(c, columns, fmt, row, db)
  {
    FetchCleared(columns, c.field, row, keys);
    if KeyOf(columns, c.field) in keys {
      VerdictOnNull(c, columns, fmt, Cleared(row, keys), db);
    } else {
      SameVerdict(c, columns, Cleared(row, keys), columns, row, fmt, db);
    }
  }

  /** A group that asks for something, and for nothing that a surviving condition does. */
  ghost predicate Uncovered(cs: seq<Condition>, g: seq<Condition>) {
    g != [] && forall c | c in g :: !AsksNothing(c) && !Survives(cs, Normal(c))
  }

  ghost predicate Covered(cs: seq<Condition>, groups: seq<seq<Condition>>) {
    forall g | g in groups :: !Uncovered(cs, g)
  }

  /** The group reads nothing that a surviving condition asks something of. */
  ghost predicate Apart(cs: seq<Condition>, g: seq<Condition>, columns: set<string>) {
    forall c, s | c in g && Survives(cs, s) && !AsksNothing(s) :: KeyOf(columns, c.field) != KeyOf(columns, s.field)
  }

  ghost predicate RightEverywhere(cs: seq<Condition>, groups: seq<seq<Condition>>, text: seq<Token>, args: seq<Value>,
                                  columns: set<string>, fmt: Format, db: Database)
  {
    forall row :: Where(text, args, row, db) == Some(T) <==> Asked(cs, groups, columns, fmt, row, db)
  }

  /** Losing covered groups does no harm. */
  lemma {:induction false} LostGroupsCovered(cs: seq<Condition>, groups: seq<seq<Condition>>, text: seq<Token>,
                                             args: seq<Value>, columns: set<string>, fmt: Format, db: Database)
    requires WhereConjoins(cs, text, args, columns, fmt) && Covered(cs, groups)
    ensures RightEverywhere(cs, groups, text, args, columns, fmt, db)
  {
    hide Survives, Verdict, AsksNothing, Where;
    forall row, c
      ensures AsksNothing(c) ==> Verdict(c, columns, fmt, row, db) == T
      ensures Verdict(Normal(c), columns, fmt, row, db) == Verdict(c, columns, fmt, row, db)
    {
      VerdictOnNull(c, columns, fmt, row, db);
      NormalSame(c, columns, fmt, row, db);
    }
    forall row
      ensures Where(text, args, row, db) == Some(T) <==> Asked(cs, groups, columns, fmt, row, db)
    {
      assert Where(text, args, row, db).Some?;
    }
  }

  /** A row that is selected without the group's keys no less, though no alternative is true there. */
  lemma {:induction false} GroupHarms(cs: seq<Condition>, g: seq<Condition>, text: seq<Token>, args: seq<Value>,
                                      columns: set<string>, fmt: Format, row: Row, db: Database)
    requires WhereConjoins(cs, text, args, columns, fmt) && Where(text, args, row, db) == Some(T)
    requires Uncovered(cs, g) && Apart(cs, g, columns)
    ensures var cleared := Cleared(row, Keys(g, columns));
      && Where(text, args, cleared, db) == Some(T)
      && forall c | c in g :: Verdict(c, columns, fmt, cleared, db) != T
  {
    hide Survives, Verdict, AsksNothing, Where, Cleared, Normal;
    var keys := Keys(g, columns);
    assert Where(text, args, Cleared(row, keys), db).Some?;
    forall c | c in g
      ensures Verdict(c, columns, fmt, Cleared(row, keys), db) != T
    {
      assert KeyOf(columns, c.field) in keys;
      VerdictCleared(c, columns, fmt, row, db, keys);
    }
    forall s | Survives(cs, s)
      ensures Verdict(s, columns, fmt, Cleared(row, keys), db) == T
    {
      VerdictOnNull(s, columns, fmt, Cleared(row, keys), db);
      VerdictCleared(s, columns, fmt, row, db, keys);
    }
  }

  /** If the uncovered groups read other values than the surviving conditions, losing
      the groups is right on all rows exactly when all are covered, or no row is
      selected at all. */
  lemma {:induction false} LostGroupsApart(cs: seq<Condition>, groups: seq<seq<Condition>>, text: seq<Token>,
                                           args: seq<Value>, columns: set<string>, fmt: Format, db: Database)
    requires WhereConjoins(cs, text, args, columns, fmt)
    requires forall g | g in groups && Uncovered(cs, g) :: Apart(cs, g, columns)
    ensures RightEverywhere(cs, groups, text, args, columns, fmt, db) <==>
            Covered(cs, groups) || forall row :: Where(text, args, row, db) != Some(T)
  {
    hide Survives, Verdict, Where, Uncovered, Apart;
    if Covered(cs, groups) {
      LostGroupsCovered(cs, groups, text, args, columns, fmt, db);
    } else if row :| Where(text, args, row, db) == Some(T) {
      var g :| g in groups && Uncovered(cs, g);
      GroupHarms(cs, g, text, args, columns, fmt, row, db);
      assert g != [] by {
        UncoveredAsks(cs, g);
      }
      assert !Asked(cs, groups, columns, fmt, Cleared(row, Keys(g, columns)), db);
    } else {
      forall row
        ensures Where(text, args, row, db) == Some(T) <==> Asked(cs, groups, columns, fmt, row, db)
      {
        assert Where(text, args, row, db).Some?;
      }
    }
  }

  lemma {:induction false} UncoveredAsks(cs: seq<Condition>, g: seq<Condition>)
    requires Uncovered(cs, g)
    ensures g != []
  {
  }

  // ---- Alternatives of several conditions

  /** `Or` takes the conditions of all its alternatives as alternatives. */
  function Flat(given: seq<seq<Condition>>): seq<Condition> {
    if given == [] then [] else Flat(given[..|given| - 1]) + given[|given| - 1]
  }

  lemma {:induction false} FlatMore(given: seq<seq<Condition>>, g: seq<Condition>)
    ensures Flat(given + [g]) == Flat(given) + g
  {
    assert (given + [g])[..|given|] == given;
  }

  lemma {:induction false} FlatHas(given: seq<seq<Condition>>, c: Condition)
    ensures c in Flat(given) <==> exists i | 0 <= i < |given| :: c in given[i]
    decreases given
  {
    if given != [] {
      var n := |given| - 1;
      FlatHas(given[..n], c);
      assert forall i | 0 <= i < n :: given[..n][i] == given[i];
    }
  }

  ghost predicate SomeTrue(g: seq<Condition>, columns: set<string>, fmt: Format, row: Row, db: Database) {
    exists c | c in g :: Verdict(c, columns, fmt, row, db) == T
  }

  ghost predicate AllTrue(g: seq<Condition>, columns: set<string>, fmt: Format, row: Row, db: Database) {
    forall c | c in g :: Verdict(c, columns, fmt, row, db) == T
  }

  /** One of the alternatives is true as it was given. */
  ghost predicate GivenTrue(given: seq<seq<Condition>>, columns: set<string>, fmt: Format, row: Row, db: Database) {
    exists i | 0 <= i < |given| :: AllTrue(given[i], columns, fmt, row, db)
  }

  ghost predicate FlatMeansGiven(given: seq<seq<Condition>>, columns: set<string>, fmt: Format, db: Database) {
    forall row :: SomeTrue(Flat(given), columns, fmt, row, db) <==> GivenTrue(given, columns, fmt, row, db)
  }

  predicate Singles(given: seq<seq<Condition>>) {
    forall i | 0 <= i < |given| :: |given[i]| == 1
  }

  lemma {:induction false} SinglesMeanGiven(given: seq<seq<Condition>>, columns: set<string>, fmt: Format, db: Database)
    requires Singles(given)
    ensures FlatMeansGiven(given, columns, fmt, db)
  {
    hide Verdict;
    forall row
      ensures SomeTrue(Flat(given), columns, fmt, row, db) <==> GivenTrue(given, columns, fmt, row, db)
    {
      forall c
        ensures c in Flat(given) <==> exists i | 0 <= i < |given| :: c in given[i]
      {
        FlatHas(given, c);
      }
      if i :| 0 <= i < |given| && AllTrue(given[i], columns, fmt, row, db) {
        assert given[i][0] in given[i] && given[i][0] in Flat(given);
      }
      if c :| c in Flat(given) && Verdict(c, columns, fmt, row, db) == T {
        var i :| 0 <= i < |given| && c in given[i];
        assert given[i] == [c];
        assert AllTrue(given[i], columns, fmt, row, db);
      }
    }
  }

  /** Conditions that read different values, each true on some row but not on all. */
  ghost predicate Independent(given: seq<seq<Condition>>, columns: set<string>, fmt: Format, db: Database) {
    && (forall i, p | 0 <= i < |given| && 0 <= p < |given[i]| ::
          !AsksNothing(given[i][p]) && exists row :: Verdict(given[i][p], columns, fmt, row, db) == T)
    && (forall i, p, j, q | 0 <= i < |given| && 0 <= p < |given[i]| && 0 <= j < |given| && 0 <= q < |given[j]| &&
          (i != j || p != q) :: KeyOf(columns, given[i][p].field) != KeyOf(columns, given[j][q].field))
  }

  /** A row on which one condition of many is true. */
  lemma {:induction false} OnlyOneTrue(given: seq<seq<Condition>>, i: nat, p: nat, columns: set<string>, fmt: Format,
                                       db: Database) returns (row: Row)
    requires Independent(given, columns, fmt, db) && i < |given| && p < |given[i]|
    ensures Verdict(given[i][p], columns, fmt, row, db) == T
    ensures forall j, q | 0 <= j < |given| && 0 <= q < |given[j]| && (j != i || q != p) ::
      Verdict(given[j][q], columns, fmt, row, db) != T
  {
    hide Verdict, AsksNothing, Cleared;
    var c := given[i][p];
    var full :| Verdict(c, columns, fmt, full, db) == T;
    var keys := Keys(Flat(given), columns) - {KeyOf(columns, c.field)};
    row := Cleared(full, keys);
    VerdictCleared(c, columns, fmt, full, db, keys);
    forall j, q | 0 <= j < |given| && 0 <= q < |given[j]| && (j != i || q != p)
      ensures Verdict(given[j][q], columns, fmt, row, db) != T
    {
      FlatHas(given, given[j][q]);
      VerdictCleared(given[j][q], columns, fmt, full, db, keys);
    }
  }

  /** Flattened, independent conditions mean the alternatives they were given in
      exactly when each alternative has one. */
  lemma {:induction false} FlatMeansGivenExactly(given: seq<seq<Condition>>, columns: set<string>, fmt: Format,
                                                 db: Database)
    requires Independent(given, columns, fmt, db)
    ensures FlatMeansGiven(given, columns, fmt, db) <==> Singles(given)
  {
    hide Verdict, AsksNothing;
    if Singles(given) {
      SinglesMeanGiven(given, columns, fmt, db);
    } else if i :| 0 <= i < |given| && given[i] == [] {
      var row := Row(map[], map[]);
      assert AllTrue(given[i], columns, fmt, row, db);
      forall c | c in Flat(given)
        ensures Verdict(c, columns, fmt, row, db) != T
      {
        FlatHas(given, c);
        FetchNothing(columns, c.field);
        VerdictOnNull(c, columns, fmt, row, db);
      }
      assert !SomeTrue(Flat(given), columns, fmt, row, db);
    } else {
      var i :| 0 <= i < |given| && |given[i]| > 1;
      var row := OnlyOneTrue(given, i, 0, columns, fmt, db);
      FlatHas(given, given[i][0]);
      assert SomeTrue(Flat(given), columns, fmt, row, db);
      forall j | 0 <= j < |given|
        ensures !AllTrue(given[j], columns, fmt, row, db)
      {
        var q := if j == i then 1 else 0;
        assert Verdict(given[j][q], columns, fmt, row, db) != T;
        assert given[j][q] in given[j];
      }
    }
  }

  lemma {:induction false} FetchNothing(columns: set<string>, field: string)
    ensures Fetch(RefOf(columns, field), Row(map[], map[])).Null?
  {
  }

  // ---- The text of groups that are not lost

  /** What a group's text asks for: an alternative with a text, if there is one. */
  ghost predicate GroupTrue(g: seq<Condition>, columns: set<string>, fmt: Format, row: Row, db: Database) {
    (exists c | c in g :: HasText(c)) ==> exists c | c in g :: HasText(c) && Verdict(c, columns, fmt, row, db) == T
  }

  lemma {:induction false} GroupTermsEmpty(group: seq<Condition>, columns: set<string>, fmt: Format)
    ensures GroupTerms(group, columns, fmt) != [] <==> exists c | c in group :: HasText(c)
    decreases group
  {
    hide ConditionFactors, HasText;
    if group != [] {
      var init, last := group[..|group| - 1], group[|group| - 1];
      GroupTermsEmpty(init, columns, fmt);
      TextHasFactors(last, RefOf(columns, last.field), fmt);
      assert group == init + [last];
      assert forall c :: c in group <==> c in init || c == last;
    }
  }

  lemma {:induction false} GroupFactorsTrue(g: seq<Condition>, columns: set<string>, fmt: Format, row: Row,
                                            db: Database)
    ensures EvalTerm(GroupFactors(g, columns, fmt), row, db) == T <==> GroupTrue(g, columns, fmt, row, db)
  {
    hide HasText, Verdict, GroupTerms;
    GroupTermsEmpty(g, columns, fmt);
    GroupCases(g, columns, fmt, row, db);
    var fs := GroupFactors(g, columns, fmt);
    if fs == [] {
      EvalNone(row, db);
    } else {
      EvalOne(fs[0], row, db);
    }
  }

  lemma {:induction false} GroupsFactorsTrue(groups: seq<seq<Condition>>, columns: set<string>, fmt: Format, row: Row,
                                             db: Database)
    ensures EvalTerm(GroupsFactors(groups, columns, fmt), row, db) == T
            <==> forall g | g in groups :: GroupTrue(g, columns, fmt, row, db)
    decreases groups
  {
    hide GroupFactors, GroupTrue;
    if groups != [] {
      var init, last := groups[..|groups| - 1], groups[|groups| - 1];
      GroupsFactorsTrue(init, columns, fmt, row, db);
      GroupFactorsTrue(last, columns, fmt, row, db);
      EvalTermConcat(GroupsFactors(init, columns, fmt), GroupFactors(last, columns, fmt), row, db);
      assert groups == init + [last];
      assert forall g :: g in groups <==> g in init || g == last;
    }
  }

  /** An SQL builder's own text is true exactly where all its conditions are and every
      group has a true alternative. */
  lemma {:induction false} BuilderTrue(cs: seq<Condition>, groups: seq<seq<Condition>>, columns: set<string>,
                                       fmt: Format, row: Row, db: Database)
    ensures EvalTerm(FactorsOf(cs, columns, fmt) + GroupsFactors(groups, columns, fmt), row, db) == T
            <==> && (forall c | c in cs :: Verdict(c, columns, fmt, row, db) == T)
                 && (forall g | g in groups :: GroupTrue(g, columns, fmt, row, db))
  {
    hide Verdict, GroupTrue, FactorsOf, GroupsFactors;
    EvalTermConcat(FactorsOf(cs, columns, fmt), GroupsFactors(groups, columns, fmt), row, db);
    FactorsCases(cs, columns, fmt, row, db);
    GroupsFactorsTrue(groups, columns, fmt, row, db);
  }

  // ---- Lists of conditions that lose nothing

  /** No operator names for fields, no object as an equality's value, and no two
      conditions on a field with an equality among them or the same operator. */
  predicate Separate(cs: seq<Condition>) {
    && (forall i | 0 <= i < |cs| :: !IsOperator(cs[i].field) && (IsEquality(cs[i].op) ==> !cs[i].value.Obj?))
    && forall i, j | 0 <= i < j < |cs| && cs[i].field == cs[j].field ::
         !IsEquality(cs[i].op) && !IsEquality(cs[j].op) && cs[i].op != cs[j].op
  }

  function Normal(c: Condition): Condition {
    if IsEquality(c.op) then c.(op := "$eq") else c
  }

  lemma {:induction false} SeparateSurvive(cs: seq<Condition>, c: Condition)
    requires Separate(cs)
    ensures Survives(cs, c) <==> exists i | 0 <= i < |cs| :: c == Normal(cs[i])
  {
    if Survives(cs, c) {
      var i :| 0 <= i < |cs| && Contributes(cs[i], c) && forall j | i < j < |cs| :: !Undoes(cs[j], cs[i], c);
      assert c == Normal(cs[i]);
    }
    if i :| 0 <= i < |cs| && c == Normal(cs[i]) {
      assert Contributes(cs[i], c);
      assert forall j | i < j < |cs| :: !Undoes(cs[j], cs[i], c);
    }
  }

  /** What a condition asks of the value a row has for its field. */
  ghost predicate Holds(c: Condition, columns: set<string>, row: Row, db: Database) {
    HoldsOf(c.op, c.value, Fetch(RefOf(columns, c.field), row), db)
  }

  ghost predicate HoldsOf(op: string, val: Value, v: Value, db: Database) {
    if op == "$eq" || op == "=" then v == val
    else if op == "$ne" || op == "!=" then v != val
    else if op == "$gt" || op == ">" then Less(val, v)
    else if op == "$gte" || op == ">=" then Less(val, v) || v == val
    else if op == "$lt" || op == "<" then Less(v, val)
    else if op == "$lte" || op == "<=" then Less(v, val) || v == val
    else if op == "$in" then val.IsArray() && v in val.Elements()
    else if op == "$nin" then val.IsArray() && v !in val.Elements()
    else op == "$regex" && v.Str? && val.Str? && (val.s, v.s) in db.regex
  }

  /** A regular expression the builder converts rightly for this database. */
  ghost predicate Searchable(pattern: string, db: Database) {
    exists start, ps, end ::
      Patterns.Plain(ps) && pattern == Patterns.Regex(start, ps, end) &&
      (db.escape == None ==> !Patterns.HasWildcardLiteral(ps))
  }

  /** The operators, literals and row values on which text and condition are compared. */
  ghost predicate Compared(op: string, val: Value, v: Value, db: Database) {
    if op in {"$eq", "=", "$ne", "!="} then IsLiteral(val) && IsLiteral(v)
    else if op in {"$gt", ">", "$gte", ">=", "$lt", "<", "$lte", "<="} then
      IsLiteral(val) && IsLiteral(v) && OneType(v, val)
    else if op == "$in" || op == "$nin" then val.IsArray() && val.Elements() != []
    else
      op == "$regex" && val.Str? && Searchable(val.s, db) && (v.Null? || (v.Str? && Patterns.LineSafe(val.s, v.s)))
  }

  predicate NullFreeOf(val: Value, v: Value) {
    !v.Null? && !val.Null? && (val.Arr? ==> Null !in val.items)
  }

  /** An operator without a name of its own is taken for equality. */
  lemma {:induction false} UnknownIsEquality(c: Condition, columns: set<string>, fmt: Format, row: Row, db: Database)
    requires c.op !in {"$ne", "!=", "$gt", ">", "$gte", ">=", "$lt", "<", "$lte", "<=", "$in", "$nin", "$regex",
                       "$exists"}
    ensures Verdict(c, columns, fmt, row, db) == EvalCompare(Eq, Fetch(RefOf(columns, c.field), row), c.value)
  {
    EvalOne(ConditionFactors(c, RefOf(columns, c.field), fmt)[0], row, db);
  }

  ghost predicate ConditionDecided(c: Condition, columns: set<string>, fmt: Format, row: Row, db: Database) {
    Decides(Verdict(c, columns, fmt, row, db), Holds(c, columns, row, db),
            NullFreeOf(c.value, Fetch(RefOf(columns, c.field), row)))
  }

  lemma {:induction false} ListConditionDecides(c: Condition, columns: set<string>, fmt: Format, row: Row, db: Database)
    requires c.op == "$in" || c.op == "$nin"
    requires Compared(c.op, c.value, Fetch(RefOf(columns, c.field), row), db)
    ensures ConditionDecided(c, columns, fmt, row, db)
  {
    var ref := RefOf(columns, c.field);
    EvalOne(ConditionFactors(c, ref, fmt)[0], row, db);
    MemberDecides(Fetch(ref, row), c.value.Elements());
  }

  lemma {:induction false} RegexConditionDecides(c: Condition, columns: set<string>, fmt: Format, row: Row,
                                                 db: Database)
    requires c.op == "$regex" && Standard(db)
    requires Compared(c.op, c.value, Fetch(RefOf(columns, c.field), row), db)
    ensures ConditionDecided(c, columns, fmt, row, db)
  {
    hide Searchable, Standard, Patterns.Like, Patterns.LineSafe, Patterns.LikeText;
    var ref := RefOf(columns, c.field);
    EvalOne(ConditionFactors(c, ref, fmt)[0], row, db);
    var v := Fetch(ref, row);
    if v.Str? {
      SearchableDecides(c.value.s, v.s, db);
    }
  }

  lemma {:induction false} CompareConditionDecides(c: Condition, columns: set<string>, fmt: Format, row: Row,
                                                   db: Database)
    requires c.op !in {"$in", "$nin", "$regex"}
    requires Compared(c.op, c.value, Fetch(RefOf(columns, c.field), row), db)
    ensures ConditionDecided(c, columns, fmt, row, db)
  {
    var ref := RefOf(columns, c.field);
    EvalOne(ConditionFactors(c, ref, fmt)[0], row, db);
  }

  lemma {:induction false} ConditionDecides(c: Condition, columns: set<string>, fmt: Format, row: Row, db: Database)
    requires Standard(db)
    requires Compared(c.op, c.value, Fetch(RefOf(columns, c.field), row), db)
    ensures !Panics(c)
    ensures Decides(Verdict(c, columns, fmt, row, db), Holds(c, columns, row, db),
                    NullFreeOf(c.value, Fetch(RefOf(columns, c.field), row)))
  {
    hide Verdict, Holds, Searchable, Standard, Fetch, RefOf;
    if c.op == "$in" || c.op == "$nin" {
      ListConditionDecides(c, columns, fmt, row, db);
    } else if c.op == "$regex" {
      RegexConditionDecides(c, columns, fmt, row, db);
    } else {
      CompareConditionDecides(c, columns, fmt, row, db);
    }
  }

  /** A condition's text selects a row rightly exactly when its nulls do no harm. */
  lemma {:induction false} ConditionExactly(c: Condition, columns: set<string>, fmt: Format, row: Row, db: Database)
    requires Standard(db)
    requires Compared(c.op, c.value, Fetch(RefOf(columns, c.field), row), db)
    ensures (Verdict(c, columns, fmt, row, db) == T <==> Holds(c, columns, row, db)) <==>
            NullsHarmless(c.op, c.value, Fetch(RefOf(columns, c.field), row))
  {
    var ref := RefOf(columns, c.field);
    ConditionDecides(c, columns, fmt, row, db);
    EvalOne(ConditionFactors(c, ref, fmt)[0], row, db);
    if c.value.IsArray() {
      MemberExactly(Fetch(ref, row), c.value.Elements());
    }
  }

  /** Compared with null: what WhereNull and WhereNotNull ask. */
  predicate NullTesting(c: Condition) {
    ConvertOperator(c.op).SqlCompare? && c.value.Null?
  }

  lemma {:induction false} NullTestUnknown(c: Condition, columns: set<string>, fmt: Format, row: Row, db: Database)
    requires NullTesting(c)
    ensures Verdict(c, columns, fmt, row, db) == U
  {
    EvalOne(ConditionFactors(c, RefOf(columns, c.field), fmt)[0], row, db);
  }

  /** A query with such a condition selects no row, whatever the table holds. */
  lemma {:induction false} NullTestSelectsNothing(cs: seq<Condition>, c: Condition, text: seq<Token>, args: seq<Value>,
                                                  columns: set<string>, fmt: Format, row: Row, db: Database)
    requires WhereConjoins(cs, text, args, columns, fmt) && Survives(cs, c) && NullTesting(c)
    ensures Where(text, args, row, db) != Some(T)
  {
    hide Survives, Verdict, Where;
    assert Where(text, args, row, db).Some?;
    NullTestUnknown(c, columns, fmt, row, db);
  }

  lemma {:induction false} SearchableDecides(pattern: string, s: string, db: Database)
    requires Standard(db) && Searchable(pattern, db) && Patterns.LineSafe(pattern, s)
    ensures Patterns.Like(Patterns.LikeText(pattern), s, db.escape) <==> (pattern, s) in db.regex
  {
    var start, ps, end :|
      Patterns.Plain(ps) && pattern == Patterns.Regex(start, ps, end) &&
      (db.escape == None ==> !Patterns.HasWildcardLiteral(ps));
    Patterns.LineSafePieces(start, ps, end, s);
    Patterns.LikeIsSearch(start, ps, end, s, db.escape);
  }

  /** The conditions an AND is compared on. */
  ghost predicate AllCompared(cs: seq<Condition>, columns: set<string>, row: Row, db: Database) {
    forall i | 0 <= i < |cs| ::
      Compared(cs[i].op, cs[i].value, Fetch(RefOf(columns, cs[i].field), row), db)
  }

  lemma {:induction false} NormalSame(c: Condition, columns: set<string>, fmt: Format, row: Row, db: Database)
    ensures Verdict(Normal(c), columns, fmt, row, db) == Verdict(c, columns, fmt, row, db)
    ensures Panics(Normal(c)) == Panics(c)
  {
  }

  /** One condition of the list: it survives, and its text decides it. */
  ghost predicate Kept(cs: seq<Condition>, c: Condition, columns: set<string>, fmt: Format, row: Row, db: Database) {
    && Survives(cs, Normal(c)) && !Panics(Normal(c))
    && Decides(Verdict(Normal(c), columns, fmt, row, db), Holds(c, columns, row, db),
               NullFreeOf(c.value, Fetch(RefOf(columns, c.field), row)))
  }

  lemma {:induction false} SeparateKept(cs: seq<Condition>, i: nat, columns: set<string>, fmt: Format, row: Row,
                                        db: Database)
    requires i < |cs| && Separate(cs) && Standard(db) && AllCompared(cs, columns, row, db)
    ensures Kept(cs, cs[i], columns, fmt, row, db)
  {
    SeparateSurvive(cs, Normal(cs[i]));
    NormalSame(cs[i], columns, fmt, row, db);
    ConditionDecides(cs[i], columns, fmt, row, db);
  }

  /** Nothing lost: the text is the conjunction of the conditions as they were
      written, sound under three-valued logic and exact without nulls. */
  lemma {:induction false} SeparateDecides(cs: seq<Condition>, v: TV, columns: set<string>, fmt: Format, row: Row,
                                           db: Database)
    requires Separate(cs) && Standard(db) && AllCompared(cs, columns, row, db)
    requires ConjoinsSurvivors(cs, v, columns, fmt, row, db)
    ensures !SurvivorPanics(cs)
    ensures Decides(v, forall c | c in cs :: Holds(c, columns, row, db),
                    forall c | c in cs :: NullFreeOf(c.value, Fetch(RefOf(columns, c.field), row)))
  {
    hide Kept, Normal;
    forall c | c in cs
      ensures Kept(cs, c, columns, fmt, row, db)
    {
      var i :| 0 <= i < |cs| && cs[i] == c;
      SeparateKept(cs, i, columns, fmt, row, db);
    }
    forall n | Survives(cs, n)
      ensures exists c | c in cs :: n == Normal(c)
    {
      SeparateSurvive(cs, n);
    }
    KeptDecides(cs, v, columns, fmt, row, db);
  }

  lemma {:induction false} KeptDecides(cs: seq<Condition>, v: TV, columns: set<string>, fmt: Format, row: Row,
                                       db: Database)
    requires ConjoinsSurvivors(cs, v, columns, fmt, row, db)
    requires forall c | c in cs :: Kept(cs, c, columns, fmt, row, db)
    requires forall n | Survives(cs, n) :: exists c | c in cs :: n == Normal(c)
    ensures !SurvivorPanics(cs)
    ensures Decides(v, forall c | c in cs :: Holds(c, columns, row, db),
                    forall c | c in cs :: NullFreeOf(c.value, Fetch(RefOf(columns, c.field), row)))
  {
    hide Verdict, Holds, Normal, NullFreeOf, Panics, Survives, RefOf, Fetch;
    if v == T {
      forall c | c in cs
        ensures Holds(c, columns, row, db)
      {
        assert Kept(cs, c, columns, fmt, row, db);
      }
    } else if v == F {
      var n :| Survives(cs, n) && Verdict(n, columns, fmt, row, db) == F;
      var c :| c in cs && n == Normal(c);
      assert Kept(cs, c, columns, fmt, row, db);
    } else {
      var n :| Survives(cs, n) && Verdict(n, columns, fmt, row, db) != T;
      var c :| c in cs && n == Normal(c);
      assert Kept(cs, c, columns, fmt, row, db);
    }
  }

  /** Is there a value where the path leads, be it an explicit null? */
  predicate LeadsTo(doc: Document, path: seq<string>)
    requires path != []
    decreases |path|
  {
    path[0] in doc && (|path| > 1 ==> doc[path[0]].Obj? && LeadsTo(doc[path[0]].fields, path[1..]))
  }

  predicate Present(ref: Ref, row: Row) {
    match ref
    case Column(name) => name in row.cells
    case JsonPath(path) => LeadsTo(row.data, Split(path))
  }

  lemma {:induction false} NowhereIsNull(doc: Document, path: seq<string>)
    requires path != []
    ensures !LeadsTo(doc, path) ==> Extract(doc, path).Null?
    decreases |path|
  {
    if |path| > 1 && path[0] in doc && doc[path[0]].Obj? {
      NowhereIsNull(doc[path[0]].fields, path[1..]);
    }
  }

  /** `$exists` loses its argument: it is right where the argument is true, except for
      an explicit null, where it is right if the argument is false. */
  lemma {:induction false} ExistsIgnoresArgument(field: string, b: bool, columns: set<string>, fmt: Format, row: Row,
                                                 db: Database)
    ensures var ref := RefOf(columns, field);
      (Verdict(Condition(field, "$exists", Bool(b)), columns, fmt, row, db) == T <==> Present(ref, row) == b)
      <==> b != (Present(ref, row) && Fetch(ref, row).Null?)
  {
    var c := Condition(field, "$exists", Bool(b));
    EvalOne(ConditionFactors(c, RefOf(columns, field), fmt)[0], row, db);
    if field !in columns {
      NowhereIsNull(row.data, Split(field));
    }
  }
}
