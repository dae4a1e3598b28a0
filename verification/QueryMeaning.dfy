/** What a MongoDB-style query means on a row, and that the emitted WHERE text
    means the same: soundly under three-valued logic on every row, and exactly
    where no NULL is involved. */
module QueryMeaning {
  import opened Values
  import opened Sql
  import opened Emission
  import opened Truth
  import Patterns

  // ---- The query's own meaning

  /** What each operator asks of a field. */
  ghost predicate MatchesOperator(name: string, val: Value, field: string, row: Row, db: Database) {
    var v := Fetch(Column(field), row);
    match name
    case "$eq" => v == val
    case "$ne" => v != val
    case "$gt" => Less(val, v)
    case "$gte" => Less(val, v) || v == val
    case "$lt" => Less(v, val)
    case "$lte" => Less(v, val) || v == val
    case "$in" => val.IsArray() && v in val.Elements()
    case "$nin" => val.IsArray() && v !in val.Elements()
    case "$regex" => v.Str? && val.Str? && (val.s, v.s) in db.regex
    case "$exists" => val.Bool? && (field in row.cells) == val.b
    case "$size" => v.IsArray() && val == Num(|v.Elements()| as real)
    case _ => true
  }

  /** Does the row match every entry of the query? A missing field equals null, and an
      operator that is not known asks nothing. */
  ghost predicate Matches(q: Value, row: Row, db: Database)
    requires q.Obj?
    decreases q, 1
  {
    forall k | k in q.fields :: MatchesEntry(k, q.fields[k], row, db)
  }

  ghost predicate MatchesEntry(field: string, v: Value, row: Row, db: Database)
    decreases v, 3
  {
    if field == "$or" then exists i | 0 <= i < |Items(v)| :: MatchesElement(Items(v)[i], row, db)
    else if field == "$and" then forall i | 0 <= i < |Items(v)| :: MatchesElement(Items(v)[i], row, db)
    else if field == "$not" then !MatchesElement(v, row, db)
    else if IsOperator(field) then true
    else if v.Obj? then forall op | op in v.fields :: MatchesOperator(op, v.fields[op], field, row, db)
    else Fetch(Column(field), row) == v
  }

  ghost predicate MatchesElement(item: Value, row: Row, db: Database)
    decreases item, 2
  {
    item.Obj? && Matches(item, row, db)
  }

  // ---- The queries, rows and databases the meaning is compared on

  predicate IsLiteral(v: Value) {
    v.IsScalar() || v.Null?
  }

  /** Regular expressions the translator's LIKE conversion is right for. */
  ghost predicate Convertible(pattern: string) {
    exists start, ps, end ::
      Patterns.Plain(ps) && !Patterns.HasRepetition(ps) && !Patterns.HasWildcardLiteral(ps) &&
      pattern == Patterns.Regex(start, ps, end)
  }

  ghost predicate HandledOperator(d: Dialect, name: string, val: Value) {
    match name
    case "$in" => val.IsArray() && forall i | 0 <= i < |val.Elements()| :: IsLiteral(val.Elements()[i])
    case "$nin" => val.IsArray() && forall i | 0 <= i < |val.Elements()| :: IsLiteral(val.Elements()[i])
    case "$regex" => val.Str? && (d.Postgres? || Convertible(val.s))
    case "$exists" => val.Bool?
    case "$size" => val.Num? && val.n.Floor as real == val.n
    case _ => name in {"$eq", "$ne", "$gt", "$gte", "$lt", "$lte"} && IsLiteral(val)
  }

  /** Only handled operators; and nothing dropped but what holds of every row: no
      negation is dropped, and of a disjunction either no part or, if it has any, all. */
  ghost predicate Handled(d: Dialect, q: Value)
    requires q.Obj?
    decreases q, 1
  {
    forall k | k in q.fields :: HandledEntry(d, k, q.fields[k])
  }

  ghost predicate HandledEntry(d: Dialect, field: string, v: Value)
    decreases v, 3
  {
    if field == "$or" then
      && Items(v) != [] && (forall i | 0 <= i < |Items(v)| :: HandledElement(d, Items(v)[i]))
      && forall i | 0 <= i < |Items(v)| :: DroppedElement(Items(v)[i]) == DroppedElement(Items(v)[0])
    else if field == "$and" then forall i | 0 <= i < |Items(v)| :: HandledElement(d, Items(v)[i])
    else if field == "$not" then HandledElement(d, v) && !DroppedElement(v)
    else if v.Obj?
      then !IsOperator(field) && forall op | op in v.fields :: HandledOperator(d, op, v.fields[op])
    else !IsOperator(field) && IsLiteral(v)
  }

  ghost predicate HandledElement(d: Dialect, item: Value)
    decreases item, 2
  {
    item.Obj? && Handled(d, item)
  }

  /** Values that are ordered: databases differ on the order across types. */
  predicate OneType(a: Value, b: Value) {
    a.Null? || b.Null? || (a.Bool? && b.Bool?) || (a.Num? && b.Num?) || (a.Str? && b.Str?)
  }

  /** The kinds of values an operator compares, and for `$exists` no explicit null. */
  ghost predicate SuitsOperator(name: string, val: Value, field: string, row: Row) {
    var v := Fetch(Column(field), row);
    match name
    case "$exists" => field in row.cells ==> !v.Null?
    case "$size" => v.Null? || v.IsArray()
    case "$regex" => v.Null? || (v.Str? && (val.Str? ==> Patterns.LineSafe(val.s, v.s)))
    case _ => IsLiteral(v) && (name in {"$gt", "$gte", "$lt", "$lte"} ==> OneType(v, val))
  }

  ghost predicate Suits(q: Value, row: Row)
    requires q.Obj?
    decreases q, 1
  {
    forall k | k in q.fields :: SuitsEntry(k, q.fields[k], row)
  }

  ghost predicate SuitsEntry(field: string, v: Value, row: Row)
    decreases v, 3
  {
    if field == "$or" || field == "$and" then
      forall i | 0 <= i < |Items(v)| :: SuitsElement(Items(v)[i], row)
    else if field == "$not" then SuitsElement(v, row)
    else if v.Obj? then forall op | op in v.fields :: SuitsOperator(op, v.fields[op], field, row)
    else IsLiteral(Fetch(Column(field), row))
  }

  ghost predicate SuitsElement(item: Value, row: Row)
    decreases item, 2
  {
    item.Obj? ==> Suits(item, row)
  }

  predicate NullFreeOperator(name: string, val: Value, field: string, row: Row) {
    name == "$exists" ||
    (!Fetch(Column(field), row).Null? && !val.Null? && (val.Arr? ==> Null !in val.items))
  }

  /** No field the query compares is missing or null, and no literal is null. */
  predicate NullFree(q: Value, row: Row)
    requires q.Obj?
    decreases q, 1
  {
    forall k | k in q.fields :: NullFreeEntry(k, q.fields[k], row)
  }

  predicate NullFreeEntry(field: string, v: Value, row: Row)
    decreases v, 3
  {
    if field == "$or" || field == "$and" then
      forall i | 0 <= i < |Items(v)| :: NullFreeElement(Items(v)[i], row)
    else if field == "$not" then NullFreeElement(v, row)
    else if v.Obj? then forall op | op in v.fields :: NullFreeOperator(op, v.fields[op], field, row)
    else NullFreeOperator("$eq", v, field, row)
  }

  predicate NullFreeElement(item: Value, row: Row)
    decreases item, 2
  {
    item.Obj? ==> NullFree(item, row)
  }

  /** LIKE escapes with a backslash or not at all, and the regex operator searches;
      databases may differ on whether `.` matches a newline. */
  ghost predicate Standard(db: Database) {
    && (db.escape == None || db.escape == Some('\\'))
    && forall start, ps, end, s | Patterns.Plain(ps) && Patterns.LineSafe(Patterns.Regex(start, ps, end), s) ::
         (Patterns.Regex(start, ps, end), s) in db.regex <==> Patterns.Search(start, ps, end, s)
  }

  /** There are such databases, with either way of escaping. */
  lemma {:induction false} StandardExists(escape: Option<char>)
    requires escape == None || escape == Some('\\')
    ensures Standard(Database(escape, Patterns.Searches()))
  {
    forall start, ps, end, s | Patterns.Plain(ps)
      ensures (Patterns.Regex(start, ps, end), s) in Patterns.Searches() <==> Patterns.Search(start, ps, end, s)
    {
      Patterns.SearchesExactly(start, ps, end, s);
    }
  }

  /** Sound: TRUE only for matches and FALSE only for non-matches; and decided without nulls. */
  predicate Decides(v: TV, matches: bool, nullFree: bool) {
    && (v == T ==> matches)
    && (v == F ==> !matches)
    && (nullFree ==> v != U)
  }

  // ---- One operator

  lemma {:induction false} MemberDecides(v: Value, lits: seq<Value>)
    ensures Decides(EvalMember(v, lits), v in lits, !v.Null? && Null !in lits)
    decreases lits
  {
    if lits != [] {
      MemberDecides(v, lits[1..]);
      assert v in lits <==> v == lits[0] || v in lits[1..];
    }
  }

  lemma {:induction false} RegexDecides(d: Dialect, val: Value, v: Value, db: Database)
    requires val.Str? && v.Str? && Patterns.LineSafe(val.s, v.s)
    requires !d.Postgres? && Convertible(val.s) && Standard(db)
    ensures Patterns.Like(Patterns.TranslatorLikeText(val.s), v.s, db.escape) <==> (val.s, v.s) in db.regex
  {
    var start, ps, end :|
      Patterns.Plain(ps) && !Patterns.HasRepetition(ps) && !Patterns.HasWildcardLiteral(ps) &&
      val.s == Patterns.Regex(start, ps, end);
    Patterns.SameConversion(start, ps, end);
    Patterns.LineSafePieces(start, ps, end, v.s);
    Patterns.LikeIsSearch(start, ps, end, v.s, db.escape);
  }

  /** What is known of the factors of one operator. */
  ghost predicate OperatorDecided(fs: seq<Factor>, name: string, val: Value, field: string, row: Row, db: Database) {
    |fs| == 1 &&
    Decides(EvalTerm(fs, row, db), MatchesOperator(name, val, field, row, db), NullFreeOperator(name, val, field, row))
  }

  lemma {:induction false} ComparisonDecides(d: Dialect, field: string, name: string, val: Value, row: Row,
                                             db: Database)
    requires name in {"$eq", "$ne", "$gt", "$gte", "$lt", "$lte"}
    requires HandledOperator(d, name, val) && SuitsOperator(name, val, field, row)
    ensures !MalformedOperator(name, val)
    ensures OperatorDecided(OperatorFactor(d, field, name, val), name, val, field, row, db)
  {
    EvalOne(OperatorFactor(d, field, name, val)[0], row, db);
  }

  lemma {:induction false} ListDecides(d: Dialect, field: string, name: string, val: Value, row: Row, db: Database)
    requires (name == "$in" || name == "$nin") && HandledOperator(d, name, val)
    ensures !MalformedOperator(name, val)
    ensures OperatorDecided(OperatorFactor(d, field, name, val), name, val, field, row, db)
  {
    EvalOne(OperatorFactor(d, field, name, val)[0], row, db);
    MemberDecides(Fetch(Column(field), row), val.Elements());
  }

  lemma {:induction false} RegexOperatorDecides(d: Dialect, field: string, val: Value, row: Row, db: Database)
    requires HandledOperator(d, "$regex", val) && SuitsOperator("$regex", val, field, row) && Standard(db)
    ensures !MalformedOperator("$regex", val)
    ensures OperatorDecided(OperatorFactor(d, field, "$regex", val), "$regex", val, field, row, db)
  {
    hide Convertible, Standard, Patterns.Like, Patterns.LineSafe, Patterns.TranslatorLikeText;
    var v := Fetch(Column(field), row);
    EvalOne(OperatorFactor(d, field, "$regex", val)[0], row, db);
    if v.Str? && !d.Postgres? {
      RegexDecides(d, val, v, db);
    }
  }

  lemma {:induction false} PredicateDecides(d: Dialect, field: string, name: string, val: Value, row: Row, db: Database)
    requires HandledOperator(d, name, val) && SuitsOperator(name, val, field, row) && Standard(db)
    ensures !MalformedOperator(name, val)
    ensures OperatorDecided(OperatorFactor(d, field, name, val), name, val, field, row, db)
  {
    if name in {"$eq", "$ne", "$gt", "$gte", "$lt", "$lte"} {
      ComparisonDecides(d, field, name, val, row, db);
    } else if name == "$in" || name == "$nin" {
      ListDecides(d, field, name, val, row, db);
    } else if name == "$regex" {
      RegexOperatorDecides(d, field, val, row, db);
    } else {
      EvalOne(OperatorFactor(d, field, name, val)[0], row, db);
    }
  }

  /** With a null on either side, equality is never true, so it is right unless both
      are null; inequality is right only if both are; and so with lists. The names are
      those of the translator and of the query builder. */
  predicate NullsHarmless(name: string, val: Value, v: Value) {
    if name in {"$ne", "!="} then v.Null? || val.Null? ==> v == val
    else if name in {"$eq", "=", "$gte", ">=", "$lte", "<="} then v.Null? || val.Null? ==> v != val
    else if name == "$in" then val.IsArray() && v.Null? ==> Null !in val.Elements()
    else if name == "$nin" then
      val.IsArray() && val.Elements() != [] && (v.Null? || Null in val.Elements()) ==> v in val.Elements()
    else true
  }

  lemma {:induction false} MemberExactly(v: Value, lits: seq<Value>)
    ensures EvalMember(v, lits) == T <==> !v.Null? && v in lits
    ensures EvalMember(v, lits) == F <==> lits == [] || (!v.Null? && Null !in lits && v !in lits)
    decreases lits
  {
    if lits != [] {
      MemberExactly(v, lits[1..]);
      assert forall x :: x in lits <==> x == lits[0] || x in lits[1..];
    }
  }

  /** An operator's text selects a row rightly exactly when its nulls do no harm. */
  lemma {:induction false} PredicateExactly(d: Dialect, field: string, name: string, val: Value, row: Row, db: Database)
    requires HandledOperator(d, name, val) && SuitsOperator(name, val, field, row) && Standard(db)
    ensures !MalformedOperator(name, val)
    ensures (EvalTerm(OperatorFactor(d, field, name, val), row, db) == T
             <==> MatchesOperator(name, val, field, row, db))
            <==> NullsHarmless(name, val, Fetch(Column(field), row))
  {
    PredicateDecides(d, field, name, val, row, db);
    EvalOne(OperatorFactor(d, field, name, val)[0], row, db);
    if name == "$in" || name == "$nin" {
      MemberExactly(Fetch(Column(field), row), val.Elements());
    }
  }

  // ---- Lists of clauses

  /** What the AND of all parts says about the parts. */
  lemma {:induction false} FlattenCases(parts: seq<seq<Factor>>, row: Row, db: Database)
    ensures EvalTerm(Flatten(parts), row, db) == T ==> forall i | 0 <= i < |parts| :: EvalTerm(parts[i], row, db) == T
    ensures EvalTerm(Flatten(parts), row, db) == F ==> exists i | 0 <= i < |parts| :: EvalTerm(parts[i], row, db) == F
    ensures EvalTerm(Flatten(parts), row, db) == U ==> exists i | 0 <= i < |parts| :: EvalTerm(parts[i], row, db) == U
    ensures forall i | 0 <= i < |parts| :: parts[i] != [] ==> Flatten(parts) != []
    decreases parts
  {
    if parts != [] {
      var n := |parts| - 1;
      FlattenCases(parts[..n], row, db);
      EvalTermConcat(Flatten(parts[..n]), parts[n], row, db);
      assert forall i | 0 <= i < n :: parts[..n][i] == parts[i];
    }
  }

  lemma {:induction false} EvalSearchConcat(a: seq<Term>, b: seq<Term>, row: Row, db: Database)
    ensures EvalSearch(a + b, row, db) == Disj(EvalSearch(a, row, db), EvalSearch(b, row, db))
    decreases a
  {
    if a == [] {
      assert a + b == b;
    } else {
      EvalSearchConcat(a[1..], b, row, db);
      assert (a + b)[1..] == a[1..] + b;
    }
  }

  lemma {:induction false} EvalOne(f: Factor, row: Row, db: Database)
    ensures EvalTerm([f], row, db) == EvalFactor(f, row, db)
    ensures EvalSearch([Term([f])], row, db) == EvalFactor(f, row, db)
  {
    assert [f][1..] == [] && [Term([f])][1..] == [];
  }

  lemma {:induction false} EvalNone(row: Row, db: Database)
    ensures EvalTerm([], row, db) == T
  {
  }

  lemma {:induction false} EvalOneTerm(fs: seq<Factor>, row: Row, db: Database)
    ensures EvalSearch([Term(fs)], row, db) == EvalTerm(fs, row, db)
  {
    assert [Term(fs)][1..] == [];
  }

  lemma {:induction false} EvalParens(negated: bool, fs: seq<Factor>, row: Row, db: Database)
    ensures EvalFactor(Factor(negated, Paren(Search([Term(fs)]))), row, db) ==
            if negated then Neg(EvalTerm(fs, row, db)) else EvalTerm(fs, row, db)
  {
    EvalOneTerm(fs, row, db);
  }

  lemma {:induction false} DisjunctsStep(init: seq<seq<Factor>>, last: seq<Factor>, row: Row, db: Database)
    ensures EvalSearch(Disjuncts(init + [last]), row, db) ==
            if last == [] then EvalSearch(Disjuncts(init), row, db)
            else Disj(EvalSearch(Disjuncts(init), row, db), EvalTerm(last, row, db))
  {
    assert (init + [last])[..|init|] == init;
    if last == [] {
      assert Disjuncts(init + [last]) == Disjuncts(init);
    } else {
      EvalSearchConcat(Disjuncts(init), [Term([Parens(last)])], row, db);
      EvalOne(Parens(last), row, db);
      EvalParens(false, last, row, db);
    }
  }

  lemma {:induction false} DisjunctsOfNone(row: Row, db: Database)
    ensures EvalSearch(Disjuncts([]), row, db) == F
  {
  }

  /** What the OR of the parts that are not empty says about them. */
  lemma {:induction false} DisjunctsCases(parts: seq<seq<Factor>>, row: Row, db: Database)
    ensures var v := EvalSearch(Disjuncts(parts), row, db);
      && (v == T <==> exists i | 0 <= i < |parts| :: parts[i] != [] && EvalTerm(parts[i], row, db) == T)
      && (v == F <==> forall i | 0 <= i < |parts| && parts[i] != [] :: EvalTerm(parts[i], row, db) == F)
    decreases parts
  {
    hide Disjuncts, EvalSearch, EvalTerm;
    if parts == [] {
      DisjunctsOfNone(row, db);
    } else {
      var n := |parts| - 1;
      DisjunctsCases(parts[..n], row, db);
      DisjunctsStep(parts[..n], parts[n], row, db);
      assert parts[..n] + [parts[n]] == parts;
      assert forall i | 0 <= i < n :: parts[..n][i] == parts[i];
    }
  }

  // ---- The whole query, whatever the iteration orders

  /** What is known of the clause of one entry. */
  ghost predicate EntryDecided(field: string, v: Value, part: seq<Factor>, row: Row, db: Database) {
    Decides(EvalTerm(part, row, db), MatchesEntry(field, v, row, db), NullFreeEntry(field, v, row))
  }

  lemma {:induction false} ClauseDecides(d: Dialect, q: Value, fs: seq<Factor>, row: Row, db: Database)
    requires q.Obj? && Handled(d, q) && Suits(q, row) && Standard(db) && ClauseOf(d, q, fs)
    ensures Decides(EvalTerm(fs, row, db), Matches(q, row, db), NullFree(q, row))
    decreases q, 1
  {
    var order, parts :| Emits(d, q, order, parts) && fs == Flatten(parts);
    assert EmitsEntries(d, q, order, parts);
    forall i | 0 <= i < |order|
      ensures order[i] in q.fields && EntryDecided(order[i], q.fields[order[i]], parts[i], row, db)
    {
      assert order[i] in q.fields;
      EntryDecides(d, order[i], q.fields[order[i]], parts[i], row, db);
    }
    EntriesDecide(q, order, parts, row, db);
  }

  lemma {:induction false} EntriesDecide(q: Value, order: seq<string>, parts: seq<seq<Factor>>, row: Row, db: Database)
    requires q.Obj? && Enumerates(order, q.fields) && |parts| == |order|
    requires forall i | 0 <= i < |order| ::
      order[i] in q.fields && EntryDecided(order[i], q.fields[order[i]], parts[i], row, db)
    ensures Decides(EvalTerm(Flatten(parts), row, db), Matches(q, row, db), NullFree(q, row))
  {
    FlattenCases(parts, row, db);
    forall k | k in q.fields
      ensures exists i :: 0 <= i < |order| && order[i] == k
    {
      assert k in order;
    }
  }

  ghost predicate ElementDecided(item: Value, part: seq<Factor>, row: Row, db: Database) {
    Decides(EvalTerm(part, row, db), MatchesElement(item, row, db), NullFreeElement(item, row))
  }

  lemma {:induction false} ElementsDecide(d: Dialect, v: Value, parts: seq<seq<Factor>>, row: Row, db: Database)
    requires PartsOf(d, v, parts) && Standard(db)
    requires forall i | 0 <= i < |parts| :: HandledElement(d, Items(v)[i]) && SuitsElement(Items(v)[i], row)
    ensures forall i | 0 <= i < |parts| :: ElementDecided(Items(v)[i], parts[i], row, db)
    decreases v, 2
  {
    forall i | 0 <= i < |parts|
      ensures ElementDecided(Items(v)[i], parts[i], row, db)
    {
      assert HandledElement(d, Items(v)[i]) && ElementOf(d, Items(v)[i], parts[i]);
      ClauseDecides(d, Items(v)[i], parts[i], row, db);
    }
  }

  lemma {:induction false} EntryDecides(d: Dialect, field: string, v: Value, fs: seq<Factor>, row: Row, db: Database)
    requires HandledEntry(d, field, v) && SuitsEntry(field, v, row) && Standard(db) && EntryOf(d, field, v, fs)
    ensures Decides(EvalTerm(fs, row, db), MatchesEntry(field, v, row, db), NullFreeEntry(field, v, row))
    decreases v, 3
  {
    if field == "$or" {
      OrDecides(d, v, fs, row, db);
    } else if field == "$and" {
      AndDecides(d, v, fs, row, db);
    } else if field == "$not" {
      NotDecides(d, v, fs, row, db);
    } else if v.Obj? {
      FieldDecides(d, field, v, fs, row, db);
    } else {
      PredicateDecides(d, field, "$eq", v, row, db);
      EvalOne(fs[0], row, db);
    }
  }

  lemma {:induction false} NotDecides(d: Dialect, v: Value, fs: seq<Factor>, row: Row, db: Database)
    requires HandledEntry(d, "$not", v) && SuitsEntry("$not", v, row) && Standard(db) && EntryOf(d, "$not", v, fs)
    ensures Decides(EvalTerm(fs, row, db), MatchesEntry("$not", v, row, db), NullFreeEntry("$not", v, row))
    decreases v, 3, 0
  {
    var sub :| ClauseOf(d, v, sub) && fs == Negation(sub);
    assert HandledElement(d, v) && SuitsElement(v, row);
    ClauseDecides(d, v, sub, row, db);
    DroppedExactly(d, v, sub);
    EvalParens(true, sub, row, db);
    EvalOne(fs[0], row, db);
    assert MatchesElement(v, row, db) == Matches(v, row, db);
    assert NullFreeElement(v, row) == NullFree(v, row);
  }

  lemma {:induction false} OrDecides(d: Dialect, v: Value, fs: seq<Factor>, row: Row, db: Database)
    requires HandledEntry(d, "$or", v) && SuitsEntry("$or", v, row) && Standard(db) && EntryOf(d, "$or", v, fs)
    ensures Decides(EvalTerm(fs, row, db), MatchesEntry("$or", v, row, db), NullFreeEntry("$or", v, row))
    decreases v, 3, 0
  {
    var parts :| PartsOf(d, v, parts) && fs == Disjunction(parts);
    ElementsDecide(d, v, parts, row, db);
    PartsDropped(d, v, parts);
    if parts[0] == [] {
      DisjunctsEmpty(parts);
      assert ElementDecided(Items(v)[0], parts[0], row, db);
    } else {
      DisjunctsCases(parts, row, db);
      EvalOne(fs[0], row, db);
    }
  }

  lemma {:induction false} AndDecides(d: Dialect, v: Value, fs: seq<Factor>, row: Row, db: Database)
    requires HandledEntry(d, "$and", v) && SuitsEntry("$and", v, row) && Standard(db) && EntryOf(d, "$and", v, fs)
    ensures Decides(EvalTerm(fs, row, db), MatchesEntry("$and", v, row, db), NullFreeEntry("$and", v, row))
    decreases v, 3, 0
  {
    var parts :| PartsOf(d, v, parts) && fs == Flatten(parts);
    ElementsDecide(d, v, parts, row, db);
    FlattenCases(parts, row, db);
  }

  lemma {:induction false} FieldDecides(d: Dialect, field: string, v: Value, fs: seq<Factor>, row: Row, db: Database)
    requires v.Obj? && !IsOperator(field) && Standard(db)
    requires HandledEntry(d, field, v) && SuitsEntry(field, v, row) && FieldOperatorsOf(d, field, v.fields, fs)
    ensures Decides(EvalTerm(fs, row, db), MatchesEntry(field, v, row, db), NullFreeEntry(field, v, row))
  {
    var order, parts :| Enumerates(order, v.fields) && EmitsOperators(d, field, v.fields, order, parts) &&
      fs == Conjunction(Flatten(parts));
    forall i | 0 <= i < |order|
      ensures PartDecided(field, v, order[i], parts[i], row, db)
    {
      var k := order[i];
      assert EmitsOperator(d, field, v.fields, k, parts[i]);
      assert HandledOperator(d, k, v.fields[k]) && SuitsOperator(k, v.fields[k], field, row);
      PredicateDecides(d, field, k, v.fields[k], row, db);
    }
    OperatorsDecide(field, v, order, parts, row, db);
  }

  /** The same of one operator among those on a field. */
  ghost predicate PartDecided(field: string, v: Value, name: string, part: seq<Factor>, row: Row, db: Database)
    requires v.Obj?
  {
    name in v.fields && part != [] &&
    Decides(EvalTerm(part, row, db),
            MatchesOperator(name, v.fields[name], field, row, db), NullFreeOperator(name, v.fields[name], field, row))
  }

  lemma {:induction false} OperatorsDecide(field: string, v: Value, order: seq<string>, parts: seq<seq<Factor>>,
                                           row: Row, db: Database)
    requires v.Obj? && !IsOperator(field)
    requires Enumerates(order, v.fields) && |parts| == |order|
    requires forall i | 0 <= i < |order| :: PartDecided(field, v, order[i], parts[i], row, db)
    ensures Decides(EvalTerm(Conjunction(Flatten(parts)), row, db),
                    MatchesEntry(field, v, row, db), NullFreeEntry(field, v, row))
  {
    hide MatchesOperator, NullFreeOperator, EvalFactor, EvalTerm, Flatten;
    var cs := Flatten(parts);
    FlattenCases(parts, row, db);
    forall k | k in v.fields
      ensures exists i :: 0 <= i < |order| && order[i] == k
    {
      assert k in order;
    }
    EvalParens(false, cs, row, db);
    EvalOne(Parens(cs), row, db);
    EvalNone(row, db);
  }

  // ---- The emitted text and arguments

  /** Bound to its arguments and parsed, the emitted text means the emitted factors:
      this holds of every query, with or without dropped parts. */
  lemma {:induction false} WhereIsTerm(d: Dialect, fs: seq<Factor>, text: seq<Token>, args: seq<Value>, next: nat,
                                       row: Row, db: Database)
    requires Prints(d, 1, fs, text, args, next)
    ensures Where(text, args, row, db) == Some(EvalTerm(fs, row, db))
  {
    EmptyText(d, 1, fs, text, args, next);
    if fs != [] {
      PrintedTerm(fs);
      BindErased(d, PrintTerm(fs), args, 0);
      assert PrintSearch([Term(fs)]) == PrintTerm(fs);
      assert WellFormedTerm([Term(fs)][0].factors);
      ParseWherePrinted(Search([Term(fs)]));
      EvalOneTerm(fs, row, db);
    }
  }

  /** The k-th placeholder, left to right, is the one for the k-th argument. */
  lemma {:induction false} PlaceholdersAlign(d: Dialect, start: nat, fs: seq<Factor>, text: seq<Token>,
                                             args: seq<Value>, next: nat)
    requires Prints(d, start, fs, text, args, next)
    ensures Placeholders(text) == Numbered(d, start, |args|) && next == start + |Placeholders(text)|
  {
    PrintedTerm(fs);
    ErasedPlaceholders(d, start, PrintTerm(fs));
  }

  /** The WHERE clause is sound for the query on this row, and exact without nulls. */
  ghost predicate SelectsRight(q: Value, text: seq<Token>, args: seq<Value>, row: Row, db: Database)
    requires q.Obj?
  {
    var w := Where(text, args, row, db);
    w.Some? && Decides(w.value, Matches(q, row, db), NullFree(q, row))
  }

  lemma {:induction false} EmittedSelectsRight(d: Dialect, q: Value, fs: seq<Factor>, text: seq<Token>,
                                               args: seq<Value>, next: nat, row: Row, db: Database)
    requires q.Obj? && Handled(d, q) && ClauseOf(d, q, fs) && Prints(d, 1, fs, text, args, next)
    requires Suits(q, row) && Standard(db)
    ensures SelectsRight(q, text, args, row, db)
  {
    ClauseDecides(d, q, fs, row, db);
    WhereIsTerm(d, fs, text, args, next, row, db);
  }

  // ---- Where the text departs from the query

  /** `$exists` is right on a row exactly when the field does not hold an explicit null. */
  lemma {:induction false} ExistsExact(d: Dialect, field: string, b: bool, row: Row, db: Database)
    ensures (EvalTerm(OperatorFactor(d, field, "$exists", Bool(b)), row, db) == T <==> (field in row.cells) == b)
            <==> (field in row.cells ==> row.cells[field] != Null)
  {
    EvalOne(OperatorFactor(d, field, "$exists", Bool(b))[0], row, db);
  }

  /** The dropped queries that ask nothing of a row; any other is met by no row. */
  predicate Vacuous(q: Value)
    requires q.Obj?
    decreases q, 1
  {
    forall k | k in q.fields :: VacuousEntry(k, q.fields[k])
  }

  predicate VacuousEntry(field: string, v: Value)
    decreases v, 3
  {
    if field == "$or" then exists i | 0 <= i < |Items(v)| :: VacuousElement(Items(v)[i])
    else if field == "$and" then forall i | 0 <= i < |Items(v)| :: VacuousElement(Items(v)[i])
    else field == "$not" ==> !VacuousElement(v)
  }

  predicate VacuousElement(item: Value)
    decreases item, 2
  {
    item.Obj? && Vacuous(item)
  }

  lemma {:induction false} DroppedMeans(q: Value, row: Row, db: Database)
    requires q.Obj? && Dropped(q)
    ensures Matches(q, row, db) <==> Vacuous(q)
    decreases q, 1
  {
    forall k | k in q.fields
      ensures MatchesEntry(k, q.fields[k], row, db) <==> VacuousEntry(k, q.fields[k])
    {
      assert DroppedEntry(k, q.fields[k]);
      DroppedEntryMeans(k, q.fields[k], row, db);
    }
  }

  lemma {:induction false} DroppedEntryMeans(field: string, v: Value, row: Row, db: Database)
    requires DroppedEntry(field, v)
    ensures MatchesEntry(field, v, row, db) <==> VacuousEntry(field, v)
    decreases v, 3
  {
    if field == "$or" || field == "$and" {
      forall i | 0 <= i < |Items(v)|
        ensures MatchesElement(Items(v)[i], row, db) <==> VacuousElement(Items(v)[i])
      {
        assert DroppedElement(Items(v)[i]);
        DroppedElementMeans(Items(v)[i], row, db);
      }
    } else if field == "$not" {
      DroppedElementMeans(v, row, db);
    }
  }

  lemma {:induction false} DroppedElementMeans(item: Value, row: Row, db: Database)
    requires DroppedElement(item)
    ensures MatchesElement(item, row, db) <==> VacuousElement(item)
    decreases item, 2
  {
    if item.Obj? {
      DroppedMeans(item, row, db);
    }
  }

  /** A dropped query selects every row. That is right on every row if the query is
      vacuous, and otherwise on none. */
  lemma {:induction false} DroppedSelectsAll(d: Dialect, q: Value, fs: seq<Factor>, row: Row, db: Database)
    requires q.Obj? && ClauseOf(d, q, fs) && Dropped(q)
    ensures EvalTerm(fs, row, db) == T
    ensures (EvalTerm(fs, row, db) == T <==> Matches(q, row, db)) <==> Vacuous(q)
  {
    DroppedExactly(d, q, fs);
    DroppedMeans(q, row, db);
  }

  /** A handled query that is dropped holds of every row. */
  lemma {:induction false} DroppedHolds(d: Dialect, q: Value, row: Row, db: Database)
    requires q.Obj? && Handled(d, q) && Dropped(q)
    ensures Matches(q, row, db)
    decreases q
  {
    forall k | k in q.fields
      ensures MatchesEntry(k, q.fields[k], row, db)
    {
      var v := q.fields[k];
      assert HandledEntry(d, k, v) && DroppedEntry(k, v);
      if k == "$or" || k == "$and" {
        forall i | 0 <= i < |Items(v)|
          ensures MatchesElement(Items(v)[i], row, db)
        {
          assert HandledElement(d, Items(v)[i]) && DroppedElement(Items(v)[i]);
          DroppedHolds(d, Items(v)[i], row, db);
        }
        assert Items(v) != [] ==> MatchesElement(Items(v)[0], row, db) || k == "$and";
      }
    }
  }

  /** A row without values suits every query. */
  lemma {:induction false} NothingSuits(q: Value)
    requires q.Obj?
    ensures Suits(q, Row(map[], map[]))
    decreases q, 1
  {
    forall k | k in q.fields
      ensures SuitsEntry(k, q.fields[k], Row(map[], map[]))
    {
      NothingSuitsEntry(k, q.fields[k]);
    }
  }

  lemma {:induction false} NothingSuitsEntry(field: string, v: Value)
    ensures SuitsEntry(field, v, Row(map[], map[]))
    decreases v, 3
  {
    if field == "$or" || field == "$and" {
      forall i | 0 <= i < |Items(v)|
        ensures SuitsElement(Items(v)[i], Row(map[], map[]))
      {
        if Items(v)[i].Obj? {
          NothingSuits(Items(v)[i]);
        }
      }
    } else if field == "$not" && v.Obj? {
      NothingSuits(v);
    }
  }

  ghost predicate DecidesEntry(field: string, v: Value, fs: seq<Factor>) {
    forall row, db | SuitsEntry(field, v, row) && Standard(db) :: EntryDecided(field, v, fs, row, db)
  }

  /** The negation of a handled query is right on all rows exactly when the query is
      not dropped. */
  lemma {:induction false} NegationExactly(d: Dialect, v: Value, fs: seq<Factor>)
    requires HandledElement(d, v) && EntryOf(d, "$not", v, fs)
    ensures DecidesEntry("$not", v, fs) <==> !Dropped(v)
  {
    if Dropped(v) {
      var row, db := Row(map[], map[]), Database(None, Patterns.Searches());
      StandardExists(None);
      NothingSuitsEntry("$not", v);
      EntryDroppedExactly(d, "$not", v, fs);
      DroppedHolds(d, v, row, db);
      assert MatchesElement(v, row, db);
      assert !EntryDecided("$not", v, fs, row, db);
    } else {
      forall row, db | SuitsEntry("$not", v, row) && Standard(db)
        ensures EntryDecided("$not", v, fs, row, db)
      {
        NotDecides(d, v, fs, row, db);
      }
    }
  }

  /** Of a disjunction some of whose elements are dropped the others are selected by.
      The dropped ones hold of every row, so without nulls the text is right exactly on
      the rows that one of the others matches. */
  lemma {:induction false} MixedDisjunction(d: Dialect, v: Value, fs: seq<Factor>, row: Row, db: Database)
    requires EntryOf(d, "$or", v, fs) && forall i | 0 <= i < |Items(v)| :: HandledElement(d, Items(v)[i])
    requires exists i | 0 <= i < |Items(v)| :: DroppedElement(Items(v)[i])
    requires exists i | 0 <= i < |Items(v)| :: !DroppedElement(Items(v)[i])
    requires SuitsEntry("$or", v, row) && NullFreeEntry("$or", v, row) && Standard(db)
    ensures MatchesEntry("$or", v, row, db)
    ensures EvalTerm(fs, row, db) == T <==>
      exists i | 0 <= i < |Items(v)| :: !DroppedElement(Items(v)[i]) && MatchesElement(Items(v)[i], row, db)
  {
    hide Disjuncts, Standard, Handled, Matches, Suits, NullFree, Dropped, ClauseOf;
    var parts :| PartsOf(d, v, parts) && fs == Disjunction(parts);
    ElementsDecide(d, v, parts, row, db);
    PartsDropped(d, v, parts);
    DisjunctsEmpty(parts);
    DisjunctsCases(parts, row, db);
    EvalOne(fs[0], row, db);
    var i :| 0 <= i < |Items(v)| && DroppedElement(Items(v)[i]);
    assert HandledElement(d, Items(v)[i]);
    DroppedHolds(d, Items(v)[i], row, db);
    assert MatchesElement(Items(v)[i], row, db);
    forall i | 0 <= i < |Items(v)| && !DroppedElement(Items(v)[i])
      ensures EvalTerm(parts[i], row, db) == T <==> MatchesElement(Items(v)[i], row, db)
      ensures EvalTerm(parts[i], row, db) != U
    {
      assert ElementDecided(Items(v)[i], parts[i], row, db);
    }
  }
}
