/** The query translator itself: loops over maps in whatever order, collecting
    clauses and arguments and threading the placeholder index. */
module Translator {
  import opened Values
  import opened Sql
  import opened Emission
  import opened QueryMeaning
  import Patterns

  datatype Result = Ok(text: seq<Token>, args: seq<Value>, next: nat) | Err(message: string)

  class QueryTranslator {
    const dialect: Dialect

    constructor (dialect: Dialect)
      ensures this.dialect == dialect
    {
      this.dialect := dialect;
    }

    /** The entry point: no query selects every row, and anything but an object is an error. */
    method TranslateQuery(mongoQuery: Value) returns (r: Result)
      ensures r.Err? <==> !mongoQuery.Null? && (!mongoQuery.Obj? || Malformed(mongoQuery))
      ensures mongoQuery.Null? ==> r.Ok? && r.text == [] && r.args == []
      ensures r.Ok? && mongoQuery.Obj? ==> (r.text == [] <==> Dropped(mongoQuery))
      ensures r.Ok? ==> Placeholders(r.text) == Numbered(dialect, 1, |r.args|)
      ensures r.Ok? ==> forall k | 0 <= k < |r.args| ::
        Placeholders(r.text)[k] == if dialect.Postgres? then Dollar(k + 1) else Question
      ensures r.Ok? && mongoQuery.Obj? && Handled(dialect, mongoQuery) ==>
        forall row, db | Suits(mongoQuery, row) && Standard(db) :: SelectsRight(mongoQuery, r.text, r.args, row, db)
    {
      if mongoQuery.Null? {
        return Ok([], [], 1);
      }
      if !mongoQuery.Obj? {
        return Err("query must be an object");
      }
      ghost var fs;
      r, fs := TranslateClause(mongoQuery, 1);
      if r.Ok? {
        PlaceholdersAlign(dialect, 1, fs, r.text, r.args, r.next);
        NumberedAt(dialect, 1, |r.args|);
        EmptyText(dialect, 1, fs, r.text, r.args, r.next);
        DroppedExactly(dialect, mongoQuery, fs);
        if Handled(dialect, mongoQuery) {
          forall row, db | Suits(mongoQuery, row) && Standard(db)
            ensures SelectsRight(mongoQuery, r.text, r.args, row, db)
          {
            EmittedSelectsRight(dialect, mongoQuery, fs, r.text, r.args, r.next, row, db);
          }
        }
      }
    }

    /** Placeholders for a list, joined by commas, and the arguments they bind. */
    method ListPlaceholders(values: seq<Value>, start: nat)
      returns (text: seq<Token>, opArgs: seq<Value>, argIndex: nat)
      ensures text == Join(PlaceholderTexts(dialect, start, |values|), Comma)
      ensures opArgs == values && argIndex == start + |values|
    {
      var placeholders: seq<seq<Token>> := [];
      opArgs, argIndex := [], start;
      for i := 0 to |values|
        invariant placeholders == PlaceholderTexts(dialect, start, i)
        invariant opArgs == values[..i] && argIndex == start + i
      {
        placeholders := placeholders + [[Placeholder(dialect, argIndex)]];
        opArgs := opArgs + [values[i]];
        argIndex := argIndex + 1;
        PlaceholderTextsStep(dialect, start, i);
      }
      text := Join(placeholders, Comma);
    }

    /** A condition with one argument. */
    method OneArgument(ghost p: Predicate, text: seq<Token>, v: Value, argIndex: nat) returns (r: Result)
      requires !p.In? && PrintPredicate(p) == text + [Lit(v)] && forall t | t in text :: !t.Lit?
      ensures r.Ok? && Prints(dialect, argIndex, [Factor(false, Test(p))], r.text, r.args, r.next)
    {
      PrintsLiteral(dialect, argIndex, p, text, v);
      r := Ok(text + [Placeholder(dialect, argIndex)], [v], argIndex + 1);
    }

    method Constant(ghost p: Predicate, text: seq<Token>, argIndex: nat) returns (r: Result)
      requires !p.In? && PrintPredicate(p) == text && forall t | t in text :: !t.Lit?
      ensures r.Ok? && Prints(dialect, argIndex, [Factor(false, Test(p))], r.text, r.args, r.next)
    {
      PrintsConstant(dialect, argIndex, p, text);
      r := Ok(text, [], argIndex);
    }

    method Membership(field: string, neg: bool, val: Value, argIndex: nat) returns (r: Result)
      ensures r.Err? <==> !val.IsArray()
      ensures r.Ok? ==>
        Prints(dialect, argIndex, OperatorFactor(dialect, field, if neg then "$nin" else "$in", val),
               r.text, r.args, r.next)
    {
      if !val.IsArray() {
        return Err(if neg then "$nin must be an array" else "$in must be an array");
      }
      var values := val.Elements();
      if |values| == 0 {
        var right := if neg then 1 else 0;
        r := Constant(Digits(1, right), [Digit(1), OpTok(Eq), Digit(right)], argIndex);
      } else {
        var list, opArgs, next := ListPlaceholders(values, argIndex);
        PrintsMembership(dialect, argIndex, Column(field), neg, values);
        r := Ok([RefTok(Column(field))] + (if neg then [KwNot] else []) + [KwIn, LParen] + list + [RParen],
                opArgs, next);
      }
    }

    method RegexMatch(field: string, val: Value, argIndex: nat) returns (r: Result)
      ensures r.Err? <==> !val.Str?
      ensures r.Ok? ==>
        Prints(dialect, argIndex, OperatorFactor(dialect, field, "$regex", val), r.text, r.args, r.next)
    {
      if !val.Str? {
        return Err("$regex must be a string");
      }
      var ref := Column(field);
      if dialect.Postgres? {
        r := OneArgument(Predicate.Regex(ref, val), [RefTok(ref), Tilde], val, argIndex);
      } else {
        var likePattern := Patterns.TranslatorRegexToLike(val.s);
        r := OneArgument(Predicate.Like(ref, Str(likePattern)), [RefTok(ref), KwLike], Str(likePattern), argIndex);
      }
    }

    method ArraySize(field: string, val: Value, argIndex: nat) returns (r: Result)
      ensures r.Err? <==> !val.Num?
      ensures r.Ok? ==>
        Prints(dialect, argIndex, OperatorFactor(dialect, field, "$size", val), r.text, r.args, r.next)
    {
      if !val.Num? {
        return Err("$size must be a number");
      }
      var size := Num(Truncate(val.n) as real);
      var ref := Column(field);
      r := OneArgument(Length(ref, size), [LengthFn, LParen, RefTok(ref), RParen, OpTok(Eq)], size, argIndex);
    }

    /** The switch over a field's operators. */
    method TranslateFieldOperator(field: string, op: string, val: Value, argIndex: nat) returns (r: Result)
      ensures r.Err? <==> MalformedOperator(op, val)
      ensures r.Ok? ==>
        Prints(dialect, argIndex, OperatorFactor(dialect, field, op, val), r.text, r.args, r.next)
    {
      var ref := Column(field);
      match op {
        case "$eq" =>
          r := OneArgument(Compare(ref, Eq, val), [RefTok(ref), OpTok(Eq)], val, argIndex);
        case "$ne" =>
          r := OneArgument(Compare(ref, Ne, val), [RefTok(ref), OpTok(Ne)], val, argIndex);
        case "$gt" =>
          r := OneArgument(Compare(ref, Gt, val), [RefTok(ref), OpTok(Gt)], val, argIndex);
        case "$gte" =>
          r := OneArgument(Compare(ref, Ge, val), [RefTok(ref), OpTok(Ge)], val, argIndex);
        case "$lt" =>
          r := OneArgument(Compare(ref, Lt, val), [RefTok(ref), OpTok(Lt)], val, argIndex);
        case "$lte" =>
          r := OneArgument(Compare(ref, Le, val), [RefTok(ref), OpTok(Le)], val, argIndex);
        case "$in" =>
          r := Membership(field, false, val, argIndex);
        case "$nin" =>
          r := Membership(field, true, val, argIndex);
        case "$regex" =>
          r := RegexMatch(field, val, argIndex);
        case "$exists" =>
          if !val.Bool? {
            return Err("$exists must be a boolean");
          }
          r := Constant(NullTest(ref, val.b),
                        [RefTok(ref), KwIs] + (if val.b then [KwNot] else []) + [KwNull], argIndex);
        case "$size" =>
          r := ArraySize(field, val, argIndex);
        case _ =>
          PrintsNothing(dialect, argIndex);
          r := Ok([], [], argIndex);
      }
    }

    method TranslateFieldOperators(field: string, operators: map<string, Value>, start: nat)
      returns (r: Result, ghost fs: seq<Factor>)
      ensures r.Err? <==> exists op | op in operators :: MalformedOperator(op, operators[op])
      ensures r.Ok? ==> FieldOperatorsOf(dialect, field, operators, fs)
      ensures r.Ok? ==> Prints(dialect, start, fs, r.text, r.args, r.next)
    {
      PrintsNothing(dialect, start);
      hide Prints, MalformedOperator, OperatorFactor, EmitsOperators, FieldOperatorsOf;
      var conditions: seq<seq<Token>>, args: seq<Value>, argIndex := [], [], start;
      var todo := operators.Keys;
      ghost var order: seq<string> := [];
      ghost var parts: seq<seq<Factor>> := [];
      ghost var cs: seq<Factor> := [];
      fs := [];
      NoOperators(dialect, field, operators);
      while todo != {}
        invariant todo <= operators.Keys
        invariant forall k :: k in order <==> k in operators && k !in todo
        invariant forall i, j | 0 <= i < j < |order| :: order[i] != order[j]
        invariant forall k | k in order :: !MalformedOperator(k, operators[k])
        invariant EmitsOperators(dialect, field, operators, order, parts)
        invariant cs == Flatten(parts)
        invariant Prints(dialect, start, cs, Join(conditions, KwAnd), args, argIndex)
        invariant conditions == [] <==> cs == []
        decreases |todo|
      {
        var op :| op in todo;
        todo := todo - {op};
        var condition := TranslateFieldOperator(field, op, operators[op], argIndex);
        if condition.Err? {
          return condition, fs;
        }
        ghost var more := OperatorFactor(dialect, field, op, operators[op]);
        EmptyText(dialect, argIndex, more, condition.text, condition.args, condition.next);
        FlattenOne(parts, more);
        OperatorsMore(dialect, field, operators, order, parts, op);
        order, parts := order + [op], parts + [more];
        if condition.text != [] {
          AddClause(dialect, start, cs, conditions, args, argIndex, more, condition.text, condition.args,
                    condition.next);
          conditions := conditions + [condition.text];
          args := args + condition.args;
        } else {
          assert cs + more == cs;
        }
        argIndex := condition.next;
        cs := cs + more;
      }
      fs := Conjunction(cs);
      IsFieldOperators(dialect, field, operators, order, parts);
      if |conditions| == 0 {
        EmptyText(dialect, start, cs, [], args, argIndex);
        return Ok([], [], argIndex), fs;
      }
      PrintsParens(dialect, start, cs, Join(conditions, KwAnd), args, argIndex);
      r := Ok([LParen] + Join(conditions, KwAnd) + [RParen], args, argIndex);
    }

    method TranslateCondition(field: string, value: Value, argIndex: nat)
      returns (r: Result, ghost fs: seq<Factor>)
      ensures r.Err? <==> MalformedEntry(field, value)
      ensures r.Ok? ==> EntryOf(dialect, field, value, fs)
      ensures r.Ok? ==> Prints(dialect, argIndex, fs, r.text, r.args, r.next)
      decreases value, 5
    {
      if HasPrefix(field, "$") {
        r, fs := TranslateOperator(field, value, argIndex);
      } else if value.Obj? {
        r, fs := TranslateFieldOperators(field, value.fields, argIndex);
      } else {
        fs := [Factor(false, Test(Compare(Column(field), Eq, value)))];
        r := OneArgument(Compare(Column(field), Eq, value), [RefTok(Column(field)), OpTok(Eq)], value, argIndex);
      }
    }

    /** The cases `$or`, `$and` and `$not`; other operators come out empty. */
    method TranslateOperator(operator: string, value: Value, argIndex: nat)
      returns (r: Result, ghost fs: seq<Factor>)
      requires HasPrefix(operator, "$")
      ensures r.Err? <==> MalformedEntry(operator, value)
      ensures r.Ok? ==> EntryOf(dialect, operator, value, fs)
      ensures r.Ok? ==> Prints(dialect, argIndex, fs, r.text, r.args, r.next)
      decreases value, 4
    {
      fs := [];
      PrintsNothing(dialect, argIndex);
      if operator == "$or" {
        if !value.IsArray() {
          return Err("$or must be an array"), fs;
        }
        r, fs := TranslateOr(value, argIndex);
      } else if operator == "$and" {
        if !value.IsArray() {
          return Err("$and must be an array"), fs;
        }
        r, fs := TranslateAnd(value, argIndex);
      } else if operator == "$not" {
        if !value.Obj? {
          return Err("$not must be an object"), fs;
        }
        ghost var sub;
        r, sub := TranslateClause(value, argIndex);
        if r.Err? {
          return r, fs;
        }
        fs := Negation(sub);
        EmptyText(dialect, argIndex, sub, r.text, r.args, r.next);
        if r.text != [] {
          PrintsNegation(dialect, argIndex, sub, r.text, r.args, r.next);
          r := Ok([KwNot, LParen] + r.text + [RParen], r.args, r.next);
        }
      } else {
        r := Ok([], [], argIndex);
      }
    }

    /** An element of `$or` or `$and`: skipped unless it is an object. */
    method TranslateElement(item: Value, argIndex: nat) returns (r: Result, ghost part: seq<Factor>)
      ensures r.Err? <==> MalformedElement(item)
      ensures r.Ok? ==> ElementOf(dialect, item, part)
      ensures r.Ok? ==> Prints(dialect, argIndex, part, r.text, r.args, r.next)
      decreases item, 3
    {
      if !item.Obj? {
        PrintsNothing(dialect, argIndex);
        return Ok([], [], argIndex), [];
      }
      r, part := TranslateClause(item, argIndex);
    }

    method TranslateOr(value: Value, start: nat) returns (r: Result, ghost fs: seq<Factor>)
      requires value.IsArray()
      ensures r.Err? <==> exists i | 0 <= i < |Items(value)| :: MalformedElement(Items(value)[i])
      ensures r.Ok? ==> exists parts :: PartsOf(dialect, value, parts) && fs == Disjunction(parts)
      ensures r.Ok? ==> Prints(dialect, start, fs, r.text, r.args, r.next)
      decreases value, 3
    {
      var orClauses: seq<seq<Token>>, args: seq<Value>, argIndex := [], [], start;
      var conditions := Items(value);
      ghost var parts: seq<seq<Factor>> := [];
      fs := [];
      for i := 0 to |conditions|
        invariant |parts| == i
        invariant forall j | 0 <= j < i ::
          !MalformedElement(conditions[j]) && ElementOf(dialect, conditions[j], parts[j])
        invariant PrintsDisjuncts(dialect, start, Disjuncts(parts), orClauses, args, argIndex)
      {
        var clause, part := TranslateElement(conditions[i], argIndex);
        if clause.Err? {
          return clause, fs;
        }
        EmptyText(dialect, argIndex, part, clause.text, clause.args, clause.next);
        if clause.text != [] {
          AddDisjunct(dialect, start, Disjuncts(parts), orClauses, args, argIndex,
                      part, clause.text, clause.args, clause.next);
          orClauses := orClauses + [[LParen] + clause.text + [RParen]];
          args := args + clause.args;
          argIndex := clause.next;
        }
        FlattenOne(parts, part);
        assert part == [] ==> Disjuncts(parts) + [] == Disjuncts(parts);
        parts := parts + [part];
      }
      fs := Disjunction(parts);
      assert PartsOf(dialect, value, parts);
      if |orClauses| > 0 {
        PrintsDisjunction(dialect, start, parts, orClauses, args, argIndex);
        return Ok([LParen] + Join(orClauses, KwOr) + [RParen], args, argIndex), fs;
      }
      r := Ok([], [], argIndex);
    }

    method TranslateAnd(value: Value, start: nat) returns (r: Result, ghost fs: seq<Factor>)
      requires value.IsArray()
      ensures r.Err? <==> exists i | 0 <= i < |Items(value)| :: MalformedElement(Items(value)[i])
      ensures r.Ok? ==> exists parts :: PartsOf(dialect, value, parts) && fs == Flatten(parts)
      ensures r.Ok? ==> Prints(dialect, start, fs, r.text, r.args, r.next)
      decreases value, 3
    {
      var andClauses: seq<seq<Token>>, args: seq<Value>, argIndex := [], [], start;
      var conditions := Items(value);
      ghost var parts: seq<seq<Factor>> := [];
      fs := [];
      for i := 0 to |conditions|
        invariant |parts| == i
        invariant forall j | 0 <= j < i ::
          !MalformedElement(conditions[j]) && ElementOf(dialect, conditions[j], parts[j])
        invariant fs == Flatten(parts) && (andClauses == [] <==> fs == [])
        invariant Prints(dialect, start, fs, Join(andClauses, KwAnd), args, argIndex)
      {
        var clause, part := TranslateElement(conditions[i], argIndex);
        if clause.Err? {
          return clause, fs;
        }
        EmptyText(dialect, argIndex, part, clause.text, clause.args, clause.next);
        if clause.text != [] {
          AddClause(dialect, start, fs, andClauses, args, argIndex, part, clause.text, clause.args, clause.next);
          andClauses := andClauses + [clause.text];
          args := args + clause.args;
          argIndex := clause.next;
        }
        FlattenOne(parts, part);
        assert part == [] ==> fs + part == fs;
        parts := parts + [part];
        fs := fs + part;
      }
      assert PartsOf(dialect, value, parts);
      r := Ok(Join(andClauses, KwAnd), args, argIndex);
    }

    /** A sub-query, with the placeholder index to start from. */
    method TranslateClause(query: Value, start: nat) returns (r: Result, ghost fs: seq<Factor>)
      requires query.Obj?
      ensures r.Err? <==> Malformed(query)
      ensures r.Ok? ==> ClauseOf(dialect, query, fs)
      ensures r.Ok? ==> Prints(dialect, start, fs, r.text, r.args, r.next)
      decreases query, 2
    {
      PrintsNothing(dialect, start);
      hide Prints, MalformedEntry, EntryOf, EmitsEntries, ClauseOf;
      NothingEmitted(dialect, query);
      var conditions: seq<seq<Token>>, args: seq<Value>, argIndex := [], [], start;
      var todo := query.fields.Keys;
      ghost var order: seq<string> := [];
      ghost var parts: seq<seq<Factor>> := [];
      fs := [];
      while todo != {}
        invariant todo <= query.fields.Keys
        invariant forall k :: k in order <==> k in query.fields && k !in todo
        invariant forall i, j | 0 <= i < j < |order| :: order[i] != order[j]
        invariant forall k | k in order :: !MalformedEntry(k, query.fields[k])
        invariant EmitsEntries(dialect, query, order, parts)
        invariant fs == Flatten(parts) && (conditions == [] <==> fs == [])
        invariant Prints(dialect, start, fs, Join(conditions, KwAnd), args, argIndex)
        decreases |todo|
      {
        var field :| field in todo;
        todo := todo - {field};
        var condition, part := TranslateCondition(field, query.fields[field], argIndex);
        if condition.Err? {
          return condition, fs;
        }
        EmptyText(dialect, argIndex, part, condition.text, condition.args, condition.next);
        if condition.text != [] {
          AddClause(dialect, start, fs, conditions, args, argIndex, part, condition.text, condition.args,
                    condition.next);
          conditions := conditions + [condition.text];
          args := args + condition.args;
          argIndex := condition.next;
        } else {
          assert fs + part == fs;
        }
        FlattenOne(parts, part);
        EmitsMore(dialect, query, order, parts, field, part);
        order, parts := order + [field], parts + [part];
        fs := fs + part;
      }
      IsClause(dialect, query, order, parts);
      r := Ok(Join(conditions, KwAnd), args, argIndex);
    }
  }
}
