/** The query builders as objects, and the text a store makes of one. */
module Builders {
  import opened Values
  import opened Sql
  import opened Emission
  import opened QueryMeaning
  import opened QueryBuilder

  /** A builder is of the base type or of the SQL type, which embeds one. */
  datatype Builder = Base(base: BaseQueryBuilder) | Sql(sql: SQLQueryBuilder)

  /** The alternatives given to `Or` that it takes: the base builders' conditions. */
  ghost function Alternatives(others: seq<Builder>): seq<seq<Condition>>
    reads set b | b in others && b.Base? :: b.base
  {
    if others == [] then []
    else
      var n := |others| - 1;
      if others[n].Base? then Alternatives(others[..n]) + [others[n].base.conditions] else Alternatives(others[..n])
  }

  /** The conditions after `And`, which may be given the builder itself. */
  ghost function Combined(self: BaseQueryBuilder, own: seq<Condition>, others: seq<Builder>): seq<Condition>
    reads set b | b in others && b.Base? :: b.base
  {
    if others == [] then own
    else
      var n := |others| - 1;
      var before := Combined(self, own, others[..n]);
      if others[n].Sql? then before
      else before + if others[n].base == self then before else others[n].base.conditions
  }

  class BaseQueryBuilder {
    var conditions: seq<Condition>
    var orGroups: seq<seq<Condition>>

    constructor ()
      ensures conditions == [] && orGroups == []
    {
      conditions, orGroups := [], [];
    }

    method Where(field: string, op: string, value: Value)
      modifies this`conditions
      ensures conditions == old(conditions) + [Condition(field, op, value)]
    {
      conditions := conditions + [Condition(field, op, value)];
    }

    method WhereNull(field: string)
      modifies this`conditions
      ensures conditions == old(conditions) + [Condition(field, "$eq", Null)]
      ensures NullTesting(conditions[|conditions| - 1])
    {
      Where(field, "$eq", Null);
    }

    method WhereNotNull(field: string)
      modifies this`conditions
      ensures conditions == old(conditions) + [Condition(field, "$ne", Null)]
      ensures NullTesting(conditions[|conditions| - 1])
    {
      Where(field, "$ne", Null);
    }

    /** One group of all conditions of the given base builders. */
    method Or(others: seq<Builder>)
      modifies this`orGroups
      ensures orGroups == old(orGroups) + [Flat(old(Alternatives(others)))]
    {
      var group: seq<Condition> := [];
      for i := 0 to |others|
        invariant group == Flat(old(Alternatives(others[..i]))) && orGroups == old(orGroups)
      {
        if others[i].Base? {
          FlatMore(old(Alternatives(others[..i])), others[i].base.conditions);
          group := group + others[i].base.conditions;
        }
        assert others[..i + 1][..i] == others[..i];
      }
      assert others[..|others|] == others;
      orGroups := orGroups + [group];
    }

    method And(others: seq<Builder>)
      modifies this`conditions
      ensures conditions == old(Combined(this, conditions, others))
    {
      for i := 0 to |others|
        invariant conditions == old(Combined(this, conditions, others[..i]))
      {
        if others[i].Base? {
          conditions := conditions + others[i].base.conditions;
        }
        assert others[..i + 1][..i] == others[..i];
      }
      assert others[..|others|] == others;
    }

    method ToMap() returns (result: map<string, Value>)
      ensures result == WithGroups(MapOf(conditions), orGroups)
    {
      result := map[];
      for i := 0 to |conditions|
        invariant result == MapOf(conditions[..i])
      {
        var cond := conditions[i];
        if cond.op == "$eq" || cond.op == "=" {
          result := result[cond.field := cond.value];
        } else if cond.field in result {
          var existing := result[cond.field];
          if existing.Obj? {
            result := result[cond.field := Obj(existing.fields[cond.op := cond.value])];
          } else {
            result := result[cond.field := Obj(map[cond.op := cond.value])];
          }
        } else {
          result := result[cond.field := Obj(map[cond.op := cond.value])];
        }
        assert conditions[..i + 1][..i] == conditions[..i];
      }
      assert conditions[..|conditions|] == conditions;
      if |orGroups| > 0 {
        var orConditions: seq<Value> := [];
        for i := 0 to |orGroups|
          invariant orConditions == GroupMaps(orGroups[..i])
        {
          var group := GroupToMap(orGroups[i]);
          orConditions := orConditions + [Obj(group)];
          assert orGroups[..i + 1][..i] == orGroups[..i];
        }
        assert orGroups[..|orGroups|] == orGroups;
        result := result["$or" := Arr(orConditions)];
      }
    }

    static method GroupToMap(group: seq<Condition>) returns (groupMap: map<string, Value>)
      ensures groupMap == GroupMap(group)
    {
      groupMap := map[];
      for i := 0 to |group|
        invariant groupMap == GroupMap(group[..i])
      {
        var cond := group[i];
        if cond.op == "$eq" || cond.op == "=" {
          groupMap := groupMap[cond.field := cond.value];
        } else {
          groupMap := groupMap[cond.field := Obj(map[cond.op := cond.value])];
        }
        assert group[..i + 1][..i] == group[..i];
      }
      assert group[..|group|] == group;
    }
  }

  // ---- Text

  /** Factors, printed as a list of parts to be joined by AND. */
  ghost predicate Built(fs: seq<Factor>, parts: seq<seq<Token>>, args: seq<Value>) {
    (parts == [] <==> fs == []) && Prints(SQLite, 1, fs, Join(parts, KwAnd), args, 1 + |args|)
  }

  lemma {:induction false} NothingBuilt()
    ensures Built([], [], [])
  {
    PrintsNothing(SQLite, 1);
  }

  lemma {:induction false} BuildStep(fs: seq<Factor>, parts: seq<seq<Token>>, args: seq<Value>,
                                     gs: seq<Factor>, text: seq<Token>, more: seq<Value>)
    requires Built(fs, parts, args) && Prints(SQLite, 1 + |args|, gs, text, more, 1 + |args| + |more|)
    ensures Built(fs + gs, if text == [] then parts else parts + [text], args + more)
  {
    EmptyText(SQLite, 1 + |args|, gs, text, more, 1 + |args| + |more|);
    if text != [] {
      AddClause(SQLite, 1, fs, parts, args, 1 + |args|, gs, text, more, 1 + |args| + |more|);
    } else {
      assert fs + gs == fs && args + more == args;
    }
  }

  lemma {:induction false} FactorsOne(cs: seq<Condition>, i: nat, columns: set<string>, fmt: Format)
    requires i < |cs|
    ensures FactorsOf(cs[..i + 1], columns, fmt) ==
            FactorsOf(cs[..i], columns, fmt) + ConditionFactors(cs[i], RefOf(columns, cs[i].field), fmt)
  {
    hide ConditionFactors;
    assert cs[..i + 1][..i] == cs[..i];
  }

  lemma {:induction false} GroupsOne(fs: seq<Factor>, groups: seq<seq<Condition>>, i: nat, columns: set<string>,
                                     fmt: Format)
    requires i < |groups|
    ensures fs + GroupsFactors(groups[..i + 1], columns, fmt) ==
            fs + GroupsFactors(groups[..i], columns, fmt) + GroupFactors(groups[i], columns, fmt)
  {
    hide GroupFactors;
    assert groups[..i + 1][..i] == groups[..i];
  }

  lemma {:induction false} GroupTermsOne(group: seq<Condition>, i: nat, columns: set<string>, fmt: Format)
    requires i < |group|
    ensures var fs := ConditionFactors(group[i], RefOf(columns, group[i].field), fmt);
      GroupTerms(group[..i + 1], columns, fmt) ==
      if fs == [] then GroupTerms(group[..i], columns, fmt) else GroupTerms(group[..i], columns, fmt) + [Term(fs)]
  {
    hide ConditionFactors;
    assert group[..i + 1][..i] == group[..i];
  }

  datatype Rendered = Rendered(text: seq<Token>, args: seq<Value>) | Panic

  class SQLQueryBuilder {
    const base: BaseQueryBuilder
    const columns: set<string>
    const fmt: Format

    constructor (columns: set<string>, fmt: Format)
      ensures fresh(base) && base.conditions == [] && base.orGroups == []
      ensures this.columns == columns && this.fmt == fmt
    {
      base := new BaseQueryBuilder();
      this.columns := columns;
      this.fmt := fmt;
    }

    /** convertMapToSQLQuery and convertMapToColumnSQL, on a new builder. Whatever the
        query has under `$or`, the groups that come of it are empty. */
    method ConvertMap(query: Value)
      requires query.Obj? && base.conditions == []
      modifies base
      ensures Lists(base.conditions, query.fields)
      ensures forall g | g in base.orGroups :: g in old(base.orGroups) || g == []
      decreases query, 1
    {
      var queryMap := query.fields;
      var todo := queryMap.Keys;
      while todo != {}
        invariant todo <= queryMap.Keys
        invariant ListsSome(base.conditions, queryMap, queryMap.Keys - todo)
        invariant forall g | g in base.orGroups :: g in old(base.orGroups) || g == []
        decreases |todo|
      {
        var field :| field in todo;
        todo := todo - {field};
        var value := queryMap[field];
        if field == "$or" {
          ConvertGroups(value);
          assert IsOperator(field);
          assert forall c :: InMap(queryMap, c) ==> c.field != field;
        } else if HasPrefix(field, "$") {
          assert forall c :: InMap(queryMap, c) ==> c.field != field;
        } else if value.Obj? {
          ConvertOperators(queryMap, field, queryMap.Keys - todo - {field});
          assert queryMap.Keys - todo - {field} + {field} == queryMap.Keys - todo;
        } else {
          base.Where(field, "$eq", value);
        }
      }
    }

    /** The entry `$or`: a list of maps, each converted by a new SQL builder, and these
        builders given to `Or`, which passes over builders of their type. */
    method ConvertGroups(value: Value)
      modifies base`orGroups
      ensures base.orGroups == old(base.orGroups) || base.orGroups == old(base.orGroups) + [[]]
      decreases value, 2
    {
      if !value.Arr? || !(forall i | 0 <= i < |value.items| :: value.items[i].Obj?) {
        return;
      }
      var orBuilders: seq<Builder> := [];
      for i := 0 to |value.items|
        invariant forall b | b in orBuilders :: b.Sql?
        invariant base.orGroups == old(base.orGroups)
      {
        var orBuilder := new SQLQueryBuilder(columns, fmt);
        orBuilder.ConvertMap(value.items[i]);
        orBuilders := orBuilders + [Sql(orBuilder)];
      }
      NoAlternatives(orBuilders);
      base.Or(orBuilders);
    }

    /** The operators of one field. */
    method ConvertOperators(queryMap: map<string, Value>, field: string, ghost done: set<string>)
      requires field in queryMap && queryMap[field].Obj? && !IsOperator(field) && field !in done
      requires ListsSome(base.conditions, queryMap, done)
      modifies base`conditions
      ensures ListsSome(base.conditions, queryMap, done + {field})
    {
      var valueMap := queryMap[field].fields;
      var todo := valueMap.Keys;
      while todo != {}
        invariant todo <= valueMap.Keys
        invariant forall i, j | 0 <= i < j < |base.conditions| :: base.conditions[i] != base.conditions[j]
        invariant forall c :: c in base.conditions <==>
          InMap(queryMap, c) && (c.field in done || (c.field == field && c.op !in todo))
        decreases |todo|
      {
        var op :| op in todo;
        todo := todo - {op};
        base.Where(field, op, valueMap[op]);
      }
    }

    /** One condition's text and arguments; the caller skips empty texts. */
    method ConditionText(cond: Condition, ghost start: nat) returns (text: seq<Token>, args: seq<Value>)
      requires !Panics(cond)
      ensures Prints(SQLite, start, ConditionFactors(cond, RefOf(columns, cond.field), fmt), text, args, start + |args|)
    {
      var ref := RefOf(columns, cond.field);
      match ConvertOperator(cond.op) {
        case SqlCompare(op) =>
          PrintsLiteral(SQLite, start, Compare(ref, op, cond.value), [RefTok(ref), OpTok(op)], cond.value);
          text, args := [RefTok(ref), OpTok(op)] + [Question], [cond.value];
        case SqlLike =>
          var pattern := Str(RegexText(cond.value, fmt));
          PrintsLiteral(SQLite, start, Predicate.Like(ref, pattern), [RefTok(ref), KwLike], pattern);
          text, args := [RefTok(ref), KwLike] + [Question], [pattern];
        case SqlNotNull =>
          PrintsConstant(SQLite, start, NullTest(ref, true), [RefTok(ref), KwIs, KwNot, KwNull]);
          text, args := [RefTok(ref), KwIs, KwNot, KwNull], [];
        case _ =>
          text, args := ListText(cond, start);
      }
    }

    method ListText(cond: Condition, ghost start: nat) returns (text: seq<Token>, args: seq<Value>)
      requires !Panics(cond) && (ConvertOperator(cond.op).SqlIn? || ConvertOperator(cond.op).SqlNotIn?)
      ensures Prints(SQLite, start, ConditionFactors(cond, RefOf(columns, cond.field), fmt), text, args, start + |args|)
    {
      if !cond.value.IsArray() {
        PrintsNothing(SQLite, start);
        return [], [];
      }
      var ref, neg := RefOf(columns, cond.field), ConvertOperator(cond.op).SqlNotIn?;
      var values := cond.value.Elements();
      PrintsMembership(SQLite, start, ref, neg, values);
      QuestionsOnly(1, start, |values|);
      text := [RefTok(ref)] + (if neg then [KwNot] else []) + [KwIn, LParen] +
        Join(PlaceholderTexts(SQLite, 1, |values|), Comma) + [RParen];
      args := values;
    }

    /** A group's text: its alternatives, joined by OR, in parentheses. */
    method GroupText(group: seq<Condition>, ghost start: nat) returns (text: seq<Token>, args: seq<Value>)
      requires !PanicsAny(group)
      ensures Prints(SQLite, start, GroupFactors(group, columns, fmt), text, args, start + |args|)
    {
      var orParts: seq<seq<Token>> := [];
      args := [];
      NoDisjuncts(SQLite, start);
      hide ConditionFactors, Panics, PrintsDisjuncts, Prints;
      for i := 0 to |group|
        invariant PrintsDisjuncts(SQLite, start, GroupTerms(group[..i], columns, fmt), orParts, args, start + |args|)
      {
        var part, more := ConditionText(group[i], start + |args|);
        ghost var fs := ConditionFactors(group[i], RefOf(columns, group[i].field), fmt);
        GroupTermsOne(group, i, columns, fmt);
        EmptyText(SQLite, start + |args|, fs, part, more, start + |args| + |more|);
        if part != [] {
          AddTerm(SQLite, start, GroupTerms(group[..i], columns, fmt), orParts, args, start + |args|, fs, part, more,
                  start + |args| + |more|);
          orParts, args := orParts + [part], args + more;
        }
      }
      assert group[..|group|] == group;
      if orParts != [] {
        SomeDisjuncts(SQLite, start, GroupTerms(group, columns, fmt), orParts, args, start + |args|);
        PrintsAlternatives(SQLite, start, GroupTerms(group, columns, fmt), orParts, args, start + |args|);
        text := [LParen] + Join(orParts, KwOr) + [RParen];
      } else {
        SomeDisjuncts(SQLite, start, GroupTerms(group, columns, fmt), orParts, args, start + |args|);
        PrintsNothing(SQLite, start);
        text := [];
      }
    }

    /** The texts of the conditions. */
    method ConditionParts() returns (panicked: bool, parts: seq<seq<Token>>, args: seq<Value>)
      ensures panicked == PanicsAny(base.conditions)
      ensures !panicked ==> Built(FactorsOf(base.conditions, columns, fmt), parts, args)
    {
      panicked, parts, args := false, [], [];
      NothingBuilt();
      hide ConditionFactors, Panics, SlicesEmpty, Built, Prints;
      var conditions := base.conditions;
      for i := 0 to |conditions|
        invariant forall j | 0 <= j < i :: !Panics(conditions[j])
        invariant Built(FactorsOf(conditions[..i], columns, fmt), parts, args)
      {
        PanicsOnEmpty(conditions[i]);
        if SlicesEmpty(conditions[i]) {
          return true, parts, args;
        }
        var text, more := ConditionText(conditions[i], 1 + |args|);
        BuildStep(FactorsOf(conditions[..i], columns, fmt), parts, args,
                  ConditionFactors(conditions[i], RefOf(columns, conditions[i].field), fmt), text, more);
        FactorsOne(conditions, i, columns, fmt);
        parts, args := if text == [] then parts else parts + [text], args + more;
      }
      assert conditions[..|conditions|] == conditions;
    }

    /** The texts of the groups, after those of the conditions; empty groups have none. */
    method GroupParts(ghost fs: seq<Factor>, conditionParts: seq<seq<Token>>, conditionArgs: seq<Value>)
      returns (panicked: bool, parts: seq<seq<Token>>, args: seq<Value>)
      requires Built(fs, conditionParts, conditionArgs)
      ensures panicked <==> exists i | 0 <= i < |base.orGroups| :: PanicsAny(base.orGroups[i])
      ensures !panicked ==> Built(fs + GroupsFactors(base.orGroups, columns, fmt), parts, args)
    {
      panicked, parts, args := false, conditionParts, conditionArgs;
      hide PanicsAny, GroupFactors, Built, Prints;
      var groups := base.orGroups;
      assert fs + GroupsFactors(groups[..0], columns, fmt) == fs;
      for i := 0 to |groups|
        invariant forall j | 0 <= j < i :: !PanicsAny(groups[j])
        invariant Built(fs + GroupsFactors(groups[..i], columns, fmt), parts, args)
      {
        SomePanic(groups[i]);
        if exists j | 0 <= j < |groups[i]| :: SlicesEmpty(groups[i][j]) {
          return true, parts, args;
        }
        var text, more := GroupText(groups[i], 1 + |args|);
        BuildStep(fs + GroupsFactors(groups[..i], columns, fmt), parts, args, GroupFactors(groups[i], columns, fmt),
                  text, more);
        GroupsOne(fs, groups, i, columns, fmt);
        parts, args := if text == [] then parts else parts + [text], args + more;
      }
      assert groups[..|groups|] == groups;
    }

    /** ToSQL, without raw conditions. */
    method ToSQL() returns (r: Rendered)
      ensures r.Panic? <==>
        PanicsAny(base.conditions) || exists i | 0 <= i < |base.orGroups| :: PanicsAny(base.orGroups[i])
      ensures r.Rendered? ==>
        Prints(SQLite, 1, FactorsOf(base.conditions, columns, fmt) + GroupsFactors(base.orGroups, columns, fmt),
               r.text, r.args, 1 + |r.args|)
    {
      var panicked, parts, args := ConditionParts();
      if panicked {
        return Panic;
      }
      panicked, parts, args := GroupParts(FactorsOf(base.conditions, columns, fmt), parts, args);
      if panicked {
        return Panic;
      }
      r := Rendered(Join(parts, KwAnd), args);
    }
  }

  lemma {:induction false} NoAlternatives(others: seq<Builder>)
    requires forall b | b in others :: b.Sql?
    ensures Alternatives(others) == []
    decreases others
  {
    if others != [] {
      var init, last := others[..|others| - 1], others[|others| - 1];
      assert last in others && forall b | b in init :: b in others;
      NoAlternatives(init);
    }
  }

  lemma {:induction false} NoDisjuncts(d: Dialect, start: nat)
    ensures PrintsDisjuncts(d, start, [], [], [], start)
  {
  }

  lemma {:induction false} SomeDisjuncts(d: Dialect, start: nat, terms: seq<Term>, clauses: seq<seq<Token>>,
                                         args: seq<Value>, next: nat)
    requires PrintsDisjuncts(d, start, terms, clauses, args, next)
    ensures clauses == [] <==> terms == []
    ensures clauses == [] ==> args == [] && next == start
  {
  }

  // ---- The stores' WHERE clause

  /** buildWhereClause: an SQL builder's own text; a base builder through its map and a
      new SQL builder, which keeps the surviving conditions and loses the OR groups.
      With `columns` it is the column store's. */
  method BuildWhereClause(query: Builder, columns: set<string>, fmt: Format) returns (r: Rendered)
    ensures query.Base? ==>
      && (r.Panic? <==> SurvivorPanics(query.base.conditions))
      && (r.Rendered? ==> WhereConjoins(query.base.conditions, r.text, r.args, columns, fmt))
    ensures query.Sql? ==>
      var b, cols, f := query.sql.base, query.sql.columns, query.sql.fmt;
      && (r.Panic? <==> PanicsAny(b.conditions) || exists i | 0 <= i < |b.orGroups| :: PanicsAny(b.orGroups[i]))
      && (r.Rendered? ==>
            Prints(SQLite, 1, FactorsOf(b.conditions, cols, f) + GroupsFactors(b.orGroups, cols, f), r.text, r.args,
                   1 + |r.args|))
    ensures r.Rendered? ==> Placeholders(r.text) == Numbered(SQLite, 1, |r.args|)
  {
    hide Prints, SurvivorPanics, WhereConjoins, Lists, MapOf, WithGroups, FactorsOf, GroupsFactors, Placeholders,
      Numbered;
    var builder: SQLQueryBuilder;
    if query.Sql? {
      builder := query.sql;
    } else {
      var queryMap := query.base.ToMap();
      builder := new SQLQueryBuilder(columns, fmt);
      builder.ConvertMap(Obj(queryMap));
      WithoutGroups(builder.base.conditions, MapOf(query.base.conditions), query.base.orGroups);
    }
    r := builder.ToSQL();
    ghost var fs := FactorsOf(builder.base.conditions, builder.columns, builder.fmt);
    ghost var gs := GroupsFactors(builder.base.orGroups, builder.columns, builder.fmt);
    if r.Rendered? {
      PlaceholdersAlign(SQLite, 1, fs + gs, r.text, r.args, 1 + |r.args|);
    }
    if query.Base? {
      EmptyGroups(builder.base.orGroups, columns, fmt);
      assert forall i | 0 <= i < |builder.base.orGroups| :: builder.base.orGroups[i] in builder.base.orGroups;
      assert fs + gs == fs;
      ListedPanics(query.base.conditions, builder.base.conditions);
      if r.Rendered? {
        PrintedConjoins(query.base.conditions, builder.base.conditions, r.text, r.args, columns, fmt);
      }
    }
  }
}
