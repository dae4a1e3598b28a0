/** What the query translator emits for a MongoDB-style query: parse trees of the
    WHERE text, as a relation that leaves open in which order maps are iterated,
    and how such trees are printed with placeholders. */
module Emission {
  import opened Values
  import opened Sql
  import Patterns

  // ---- What is emitted, as parse trees

  function Parens(fs: seq<Factor>): Factor {
    Factor(false, Paren(Search([Term(fs)])))
  }

  function Flatten(parts: seq<seq<Factor>>): seq<Factor> {
    if parts == [] then [] else Flatten(parts[..|parts| - 1]) + parts[|parts| - 1]
  }

  /** The disjuncts of an OR: sub-clauses that came out empty are dropped. */
  function Disjuncts(parts: seq<seq<Factor>>): seq<Term> {
    if parts == [] then []
    else
      var last := parts[|parts| - 1];
      Disjuncts(parts[..|parts| - 1]) + (if last == [] then [] else [Term([Parens(last)])])
  }

  function Disjunction(parts: seq<seq<Factor>>): seq<Factor> {
    if Disjuncts(parts) == [] then [] else [Factor(false, Paren(Search(Disjuncts(parts))))]
  }

  function Negation(sub: seq<Factor>): seq<Factor> {
    if sub == [] then [] else [Factor(true, Paren(Search([Term(sub)])))]
  }

  function Conjunction(cs: seq<Factor>): seq<Factor> {
    if cs == [] then [] else [Parens(cs)]
  }

  /** Go's conversion of a float to an int. */
  function Truncate(n: real): int {
    if n >= 0.0 then n.Floor else -((-n).Floor)
  }

  /** The operators on a field that the translator's switch handles. */
  datatype FieldOp = OpCompare(c: CompareOp) | OpIn | OpNin | OpRegex | OpExists | OpSize | OpDropped

  function FieldOpOf(op: string): FieldOp {
    match op
    case "$eq" => OpCompare(Eq)
    case "$ne" => OpCompare(Ne)
    case "$gt" => OpCompare(Gt)
    case "$gte" => OpCompare(Ge)
    case "$lt" => OpCompare(Lt)
    case "$lte" => OpCompare(Le)
    case "$in" => OpIn
    case "$nin" => OpNin
    case "$regex" => OpRegex
    case "$exists" => OpExists
    case "$size" => OpSize
    case _ => OpDropped
  }

  /** The names of the operators on a field; any other name is passed over. */
  const OPERATORS: set<string> :=
    {"$eq", "$ne", "$gt", "$gte", "$lt", "$lte", "$in", "$nin", "$regex", "$exists", "$size"}

  lemma {:induction false} OnlyOthersDropped(op: string)
    ensures FieldOpOf(op).OpDropped? <==> op !in OPERATORS
  {
  }

  predicate MalformedOperator(op: string, val: Value) {
    match op
    case "$in" => !val.IsArray()
    case "$nin" => !val.IsArray()
    case "$regex" => !val.Str?
    case "$exists" => !val.Bool?
    case "$size" => !val.Num?
    case _ => false
  }

  /** The predicate for one operator on a field, if the operator is handled. */
  function OperatorPredicate(d: Dialect, ref: Ref, op: FieldOp, val: Value): Option<Predicate>
    requires (op.OpIn? || op.OpNin? ==> val.IsArray()) && (op.OpRegex? ==> val.Str?)
    requires (op.OpExists? ==> val.Bool?) && (op.OpSize? ==> val.Num?)
  {
    match op
    case OpCompare(c) => Some(Compare(ref, c, val))
    case OpIn => Some(if val.Elements() == [] then Digits(1, 0) else In(ref, false, val.Elements()))
    case OpNin => Some(if val.Elements() == [] then Digits(1, 1) else In(ref, true, val.Elements()))
    case OpRegex =>
      Some(if d.Postgres? then Predicate.Regex(ref, val)
           else Predicate.Like(ref, Str(Patterns.TranslatorLikeText(val.s))))
    case OpExists => Some(NullTest(ref, val.b))
    case OpSize => Some(Length(ref, Num(Truncate(val.n) as real)))
    case OpDropped => None
  }

  function OperatorFactor(d: Dialect, field: string, op: string, val: Value): seq<Factor>
    requires !MalformedOperator(op, val)
  {
    var p := OperatorPredicate(d, Column(field), FieldOpOf(op), val);
    if p.Some? then [Factor(false, Test(p.value))] else []
  }

  predicate IsOperator(field: string) {
    HasPrefix(field, "$")
  }

  function Items(v: Value): seq<Value> {
    if v.Arr? then v.items else []
  }

  /** The queries the translator answers with an error. */
  predicate Malformed(q: Value)
    requires q.Obj?
    decreases q, 1
  {
    exists k | k in q.fields :: MalformedEntry(k, q.fields[k])
  }

  predicate MalformedEntry(field: string, v: Value)
    decreases v, 2
  {
    if field == "$or" || field == "$and" then
      !v.IsArray() || exists i | 0 <= i < |Items(v)| :: MalformedElement(Items(v)[i])
    else if field == "$not" then
      !v.Obj? || Malformed(v)
    else
      !IsOperator(field) && v.Obj? && exists op | op in v.fields :: MalformedOperator(op, v.fields[op])
  }

  predicate MalformedElement(item: Value)
    decreases item, 2
  {
    item.Obj? && Malformed(item)
  }

  /** The queries no text is emitted for. */
  predicate Dropped(q: Value)
    requires q.Obj?
    decreases q, 1
  {
    forall k | k in q.fields :: DroppedEntry(k, q.fields[k])
  }

  predicate DroppedEntry(field: string, v: Value)
    decreases v, 3
  {
    if field == "$or" || field == "$and" then forall i | 0 <= i < |Items(v)| :: DroppedElement(Items(v)[i])
    else if field == "$not" then DroppedElement(v)
    else if IsOperator(field) then true
    else v.Obj? && forall op | op in v.fields :: op !in OPERATORS
  }

  predicate DroppedElement(item: Value)
    decreases item, 2
  {
    item.Obj? ==> Dropped(item)
  }

  /** The parts emitted for operators on a field, in the order they are iterated. */
  predicate EmitsOperators(d: Dialect, field: string, ops: map<string, Value>, order: seq<string>,
                           parts: seq<seq<Factor>>)
  {
    |parts| == |order| && forall i | 0 <= i < |order| :: EmitsOperator(d, field, ops, order[i], parts[i])
  }

  predicate EmitsOperator(d: Dialect, field: string, ops: map<string, Value>, op: string, part: seq<Factor>) {
    op in ops && !MalformedOperator(op, ops[op]) && part == OperatorFactor(d, field, op, ops[op])
  }

  lemma {:induction false} NoOperators(d: Dialect, field: string, ops: map<string, Value>)
    ensures EmitsOperators(d, field, ops, [], [])
  {
  }

  lemma {:induction false} OperatorsMore(d: Dialect, field: string, ops: map<string, Value>, order: seq<string>,
                                         parts: seq<seq<Factor>>, op: string)
    requires EmitsOperators(d, field, ops, order, parts) && op in ops && !MalformedOperator(op, ops[op])
    ensures EmitsOperators(d, field, ops, order + [op], parts + [OperatorFactor(d, field, op, ops[op])])
  {
    hide MalformedOperator, OperatorFactor;
  }

  lemma {:induction false} IsFieldOperators(d: Dialect, field: string, ops: map<string, Value>, order: seq<string>,
                                            parts: seq<seq<Factor>>)
    requires Enumerates(order, ops) && EmitsOperators(d, field, ops, order, parts)
    ensures FieldOperatorsOf(d, field, ops, Conjunction(Flatten(parts)))
  {
  }

  /** `fs` is emitted for the operators on a field under some iteration order. */
  ghost predicate FieldOperatorsOf(d: Dialect, field: string, ops: map<string, Value>, fs: seq<Factor>) {
    exists order, parts ::
      Enumerates(order, ops) && EmitsOperators(d, field, ops, order, parts) && fs == Conjunction(Flatten(parts))
  }

  /** `fs` is emitted for one entry of a query. */
  ghost predicate EntryOf(d: Dialect, field: string, v: Value, fs: seq<Factor>)
    decreases v, 4
  {
    if field == "$or" then
      v.IsArray() && exists parts :: PartsOf(d, v, parts) && fs == Disjunction(parts)
    else if field == "$and" then
      v.IsArray() && exists parts :: PartsOf(d, v, parts) && fs == Flatten(parts)
    else if field == "$not" then
      v.Obj? && exists sub :: ClauseOf(d, v, sub) && fs == Negation(sub)
    else if IsOperator(field) then fs == []
    else if v.Obj? then FieldOperatorsOf(d, field, v.fields, fs)
    else fs == [Factor(false, Test(Compare(Column(field), Eq, v)))]
  }

  /** `parts` are emitted for the elements of an array; elements that are no objects are skipped. */
  ghost predicate PartsOf(d: Dialect, v: Value, parts: seq<seq<Factor>>)
    decreases v, 3
  {
    |parts| == |Items(v)| && forall i | 0 <= i < |parts| :: ElementOf(d, Items(v)[i], parts[i])
  }

  ghost predicate ElementOf(d: Dialect, item: Value, part: seq<Factor>)
    decreases item, 3
  {
    if item.Obj? then ClauseOf(d, item, part) else part == []
  }

  /** `fs` is emitted for a whole query under some iteration order of its map. */
  ghost predicate ClauseOf(d: Dialect, q: Value, fs: seq<Factor>)
    requires q.Obj?
    decreases q, 2
  {
    exists order, parts :: Emits(d, q, order, parts) && fs == Flatten(parts)
  }

  ghost predicate Emits(d: Dialect, q: Value, order: seq<string>, parts: seq<seq<Factor>>)
    requires q.Obj?
    decreases q, 1
  {
    Enumerates(order, q.fields) && EmitsEntries(d, q, order, parts)
  }

  ghost predicate EmitsEntries(d: Dialect, q: Value, order: seq<string>, parts: seq<seq<Factor>>)
    requires q.Obj?
    decreases q, 0
  {
    |parts| == |order| &&
    forall i | 0 <= i < |order| :: order[i] in q.fields && EntryOf(d, order[i], q.fields[order[i]], parts[i])
  }

  lemma {:induction false} NothingEmitted(d: Dialect, q: Value)
    requires q.Obj?
    ensures EmitsEntries(d, q, [], [])
  {
  }

  lemma {:induction false} IsClause(d: Dialect, q: Value, order: seq<string>, parts: seq<seq<Factor>>)
    requires q.Obj? && Enumerates(order, q.fields) && EmitsEntries(d, q, order, parts)
    ensures ClauseOf(d, q, Flatten(parts))
  {
    assert Emits(d, q, order, parts);
  }

  /** One more entry, emitted after those already emitted. */
  lemma {:induction false} EmitsMore(d: Dialect, q: Value, order: seq<string>, parts: seq<seq<Factor>>, k: string,
                                     part: seq<Factor>)
    requires q.Obj? && EmitsEntries(d, q, order, parts) && k in q.fields && EntryOf(d, k, q.fields[k], part)
    ensures EmitsEntries(d, q, order + [k], parts + [part])
  {
    hide EntryOf;
  }

  // ---- The printed form of a list of factors

  predicate WellFormedAll(fs: seq<Factor>) {
    forall i | 0 <= i < |fs| :: WellFormed(fs[i])
  }

  /** The text, the arguments and the next placeholder index for `fs`. */
  predicate Prints(d: Dialect, start: nat, fs: seq<Factor>, text: seq<Token>, args: seq<Value>, next: nat) {
    && WellFormedAll(fs)
    && text == Erase(d, start, PrintTerm(fs))
    && args == Literals(PrintTerm(fs))
    && next == start + |args|
  }

  function Join(texts: seq<seq<Token>>, separator: Token): seq<Token> {
    if texts == [] then []
    else if |texts| == 1 then texts[0]
    else Join(texts[..|texts| - 1], separator) + [separator] + texts[|texts| - 1]
  }

  lemma {:induction false} PrintTermConcat(a: seq<Factor>, b: seq<Factor>)
    requires a != [] && b != []
    ensures PrintTerm(a + b) == PrintTerm(a) + [KwAnd] + PrintTerm(b)
    decreases a
  {
    assert (a + b)[1..] == a[1..] + b;
    if |a| > 1 {
      PrintTermConcat(a[1..], b);
      var x, y := PrintFactor(a[0]) + [KwAnd], PrintTerm(a[1..]);
      assert x + (y + [KwAnd] + PrintTerm(b)) == x + y + [KwAnd] + PrintTerm(b);
    }
  }

  lemma {:induction false} PrintSearchConcat(a: seq<Term>, b: seq<Term>)
    requires a != [] && b != []
    ensures PrintSearch(a + b) == PrintSearch(a) + [KwOr] + PrintSearch(b)
    decreases a
  {
    assert (a + b)[1..] == a[1..] + b;
    if |a| > 1 {
      PrintSearchConcat(a[1..], b);
      var x, y := PrintTerm(a[0].factors) + [KwOr], PrintSearch(a[1..]);
      assert x + (y + [KwOr] + PrintSearch(b)) == x + y + [KwOr] + PrintSearch(b);
    }
  }

  lemma {:induction false} LiteralsJoined(a: seq<Token>, keyword: Token, b: seq<Token>)
    requires !keyword.Lit?
    ensures Literals(a + [keyword]) == Literals(a)
    ensures Literals(a + [keyword] + b) == Literals(a) + Literals(b)
  {
    LiteralsConcat(a + [keyword], b);
    LiteralsConcat(a, [keyword]);
    assert Literals([keyword]) == [];
  }

  /** Joining two texts with a keyword joins their erasures and their literals. */
  lemma {:induction false} EraseJoined(d: Dialect, start: nat, a: seq<Token>, keyword: Token, b: seq<Token>)
    requires !keyword.Lit?
    ensures Literals(a + [keyword] + b) == Literals(a) + Literals(b)
    ensures Erase(d, start, a + [keyword] + b) ==
            Erase(d, start, a) + [keyword] + Erase(d, start + |Literals(a)|, b)
  {
    LiteralsJoined(a, keyword, b);
    EraseConcat(d, start, a + [keyword], b);
    EraseConcat(d, start, a, [keyword]);
    assert Erase(d, start + |Literals(a)|, [keyword]) == [keyword];
    hide Erase, Literals;
  }

  lemma {:induction false} EraseParens(d: Dialect, start: nat, ts: seq<Token>)
    ensures Literals([LParen] + ts + [RParen]) == Literals(ts)
    ensures Erase(d, start, [LParen] + ts + [RParen]) == [LParen] + Erase(d, start, ts) + [RParen]
  {
    EraseConcat(d, start, [LParen] + ts, [RParen]);
    EraseConcat(d, start, [LParen], ts);
    LiteralsConcat([LParen] + ts, [RParen]);
    LiteralsConcat([LParen], ts);
    assert Literals([LParen]) == [] && Literals([RParen]) == [];
  }

  lemma {:induction false} JoinOne(texts: seq<seq<Token>>, separator: Token, text: seq<Token>)
    ensures Join(texts + [text], separator) ==
            if texts == [] then text else Join(texts, separator) + [separator] + text
  {
    assert (texts + [text])[..|texts|] == texts;
  }

  /** One more clause after those already collected. */
  lemma {:induction false} AddClause(d: Dialect, start: nat, fs: seq<Factor>, texts: seq<seq<Token>>, args: seq<Value>,
                                     middle: nat, more: seq<Factor>, text: seq<Token>, moreArgs: seq<Value>, next: nat)
    requires Prints(d, start, fs, Join(texts, KwAnd), args, middle) && (texts == [] <==> fs == [])
    requires Prints(d, middle, more, text, moreArgs, next) && more != []
    ensures Prints(d, start, fs + more, Join(texts + [text], KwAnd), args + moreArgs, next)
  {
    JoinOne(texts, KwAnd, text);
    if fs == [] {
      assert fs + more == more && args + moreArgs == moreArgs;
    } else {
      PrintTermConcat(fs, more);
      EraseJoined(d, start, PrintTerm(fs), KwAnd, PrintTerm(more));
    }
  }

  lemma {:induction false} PrintsNothing(d: Dialect, start: nat)
    ensures Prints(d, start, [], [], [], start)
  {
  }

  lemma {:induction false} PrintParenthesised(negated: bool, terms: seq<Term>)
    ensures PrintTerm([Factor(negated, Paren(Search(terms)))]) ==
            (if negated then [KwNot, LParen] else [LParen]) + PrintSearch(terms) + [RParen]
  {
    var f := Factor(negated, Paren(Search(terms)));
    assert PrintPrimary(f.primary) == [LParen] + PrintSearch(terms) + [RParen];
    assert PrintFactor(f) == (if negated then [KwNot] else []) + PrintPrimary(f.primary);
    assert PrintTerm([f]) == PrintFactor(f);
  }

  lemma {:induction false} PrintOneTerm(cs: seq<Factor>)
    ensures PrintSearch([Term(cs)]) == PrintTerm(cs)
  {
  }

  lemma {:induction false} WellFormedParens(negated: bool, cs: seq<Factor>)
    requires WellFormedAll(cs) && cs != []
    ensures WellFormed(Factor(negated, Paren(Search([Term(cs)]))))
  {
    var s := Search([Term(cs)]);
    assert WellFormedTerm(s.terms[0].factors);
    assert WellFormedSearch(s);
  }

  lemma {:induction false} PrintsParens(d: Dialect, start: nat, cs: seq<Factor>, text: seq<Token>, args: seq<Value>,
                                        next: nat)
    requires Prints(d, start, cs, text, args, next) && cs != []
    ensures Prints(d, start, [Parens(cs)], [LParen] + text + [RParen], args, next)
  {
    EraseParens(d, start, PrintTerm(cs));
    WellFormedParens(false, cs);
    PrintParenthesised(false, [Term(cs)]);
    PrintOneTerm(cs);
  }

  lemma {:induction false} PrintsNegation(d: Dialect, start: nat, sub: seq<Factor>, text: seq<Token>,
                                          args: seq<Value>, next: nat)
    requires Prints(d, start, sub, text, args, next) && sub != []
    ensures Prints(d, start, Negation(sub), [KwNot, LParen] + text + [RParen], args, next)
  {
    var inner := [LParen] + PrintTerm(sub) + [RParen];
    EraseParens(d, start, PrintTerm(sub));
    EraseConcat(d, start, [KwNot], inner);
    LiteralsConcat([KwNot], inner);
    assert Literals([KwNot]) == [] && Erase(d, start, [KwNot]) == [KwNot];
    WellFormedParens(true, sub);
    PrintParenthesised(true, [Term(sub)]);
    PrintOneTerm(sub);
    assert [KwNot, LParen] + PrintTerm(sub) + [RParen] == [KwNot] + inner;
    assert [KwNot] + ([LParen] + text + [RParen]) == [KwNot, LParen] + text + [RParen];
  }

  /** What the loop over the elements of `$or` has collected. */
  predicate PrintsDisjuncts(d: Dialect, start: nat, terms: seq<Term>, clauses: seq<seq<Token>>, args: seq<Value>,
                            next: nat)
  {
    && (forall i | 0 <= i < |terms| :: WellFormedTerm(terms[i].factors))
    && (clauses == [] <==> terms == [])
    && Join(clauses, KwOr) == Erase(d, start, PrintSearch(terms))
    && args == Literals(PrintSearch(terms))
    && next == start + |args|
  }

  lemma {:induction false} AddTerm(d: Dialect, start: nat, terms: seq<Term>, clauses: seq<seq<Token>>, args: seq<Value>,
                                   middle: nat, fs: seq<Factor>, text: seq<Token>, moreArgs: seq<Value>, next: nat)
    requires PrintsDisjuncts(d, start, terms, clauses, args, middle)
    requires Prints(d, middle, fs, text, moreArgs, next) && fs != []
    ensures PrintsDisjuncts(d, start, terms + [Term(fs)], clauses + [text], args + moreArgs, next)
  {
    JoinOne(clauses, KwOr, text);
    PrintOneTerm(fs);
    if terms == [] {
      assert terms + [Term(fs)] == [Term(fs)] && args + moreArgs == moreArgs;
    } else {
      PrintSearchConcat(terms, [Term(fs)]);
      EraseJoined(d, start, PrintSearch(terms), KwOr, PrintTerm(fs));
    }
  }

  lemma {:induction false} AddDisjunct(d: Dialect, start: nat, terms: seq<Term>, clauses: seq<seq<Token>>,
                                       args: seq<Value>, middle: nat, fs: seq<Factor>, text: seq<Token>,
                                       moreArgs: seq<Value>, next: nat)
    requires PrintsDisjuncts(d, start, terms, clauses, args, middle)
    requires Prints(d, middle, fs, text, moreArgs, next) && fs != []
    ensures PrintsDisjuncts(d, start, terms + [Term([Parens(fs)])], clauses + [[LParen] + text + [RParen]],
                            args + moreArgs, next)
  {
    PrintsParens(d, middle, fs, text, moreArgs, next);
    AddTerm(d, start, terms, clauses, args, middle, [Parens(fs)], [LParen] + text + [RParen], moreArgs, next);
  }

  lemma {:induction false} PrintsAlternatives(d: Dialect, start: nat, terms: seq<Term>, clauses: seq<seq<Token>>,
                                              args: seq<Value>, next: nat)
    requires PrintsDisjuncts(d, start, terms, clauses, args, next) && clauses != []
    ensures Prints(d, start, [Factor(false, Paren(Search(terms)))], [LParen] + Join(clauses, KwOr) + [RParen], args,
                   next)
  {
    EraseParens(d, start, PrintSearch(terms));
    PrintParenthesised(false, terms);
  }

  lemma {:induction false} PrintsDisjunction(d: Dialect, start: nat, parts: seq<seq<Factor>>, clauses: seq<seq<Token>>,
                                             args: seq<Value>, next: nat)
    requires PrintsDisjuncts(d, start, Disjuncts(parts), clauses, args, next) && clauses != []
    ensures Prints(d, start, Disjunction(parts), [LParen] + Join(clauses, KwOr) + [RParen], args, next)
  {
    PrintsAlternatives(d, start, Disjuncts(parts), clauses, args, next);
  }

  lemma {:induction false} FlattenOne(parts: seq<seq<Factor>>, part: seq<Factor>)
    ensures Flatten(parts + [part]) == Flatten(parts) + part
    ensures Disjuncts(parts + [part]) == Disjuncts(parts) + (if part == [] then [] else [Term([Parens(part)])])
  {
    assert (parts + [part])[..|parts|] == parts;
  }

  // ---- Lists of placeholders

  function PlaceholderTexts(d: Dialect, start: nat, n: nat): seq<seq<Token>> {
    seq(n, i requires 0 <= i => [Placeholder(d, start + i)])
  }

  lemma {:induction false} JoinFirst(text: seq<Token>, texts: seq<seq<Token>>, separator: Token)
    requires texts != []
    ensures Join([text] + texts, separator) == text + [separator] + Join(texts, separator)
    decreases texts
  {
    var n := |texts| - 1;
    assert ([text] + texts)[..n + 1] == [text] + texts[..n];
    if n > 0 {
      JoinFirst(text, texts[..n], separator);
      assert (text + [separator] + Join(texts[..n], separator)) + [separator] + texts[n] ==
        text + [separator] + (Join(texts[..n], separator) + [separator] + texts[n]);
    } else {
      assert texts[..n] == [] && [text] + texts[..n] == [text];
    }
  }

  lemma {:induction false} PlaceholderTextsStep(d: Dialect, start: nat, n: nat)
    ensures PlaceholderTexts(d, start, n + 1) == [[Placeholder(d, start)]] + PlaceholderTexts(d, start + 1, n)
    ensures PlaceholderTexts(d, start, n + 1) == PlaceholderTexts(d, start, n) + [[Placeholder(d, start + n)]]
  {
  }

  lemma {:induction false} EraseListHead(d: Dialect, start: nat, v: Value)
    ensures Literals([Lit(v), Comma]) == [v]
    ensures Erase(d, start, [Lit(v), Comma]) == [Placeholder(d, start), Comma]
  {
    assert [Lit(v), Comma][1..] == [Comma];
    assert Literals([Comma]) == [] && Erase(d, start + 1, [Comma]) == [Comma];
  }

  lemma {:induction false} ListLiterals(vs: seq<Value>)
    ensures Literals(PrintList(vs)) == vs
    decreases vs
  {
    if |vs| == 1 {
      assert [Lit(vs[0])][1..] == [];
    } else if |vs| > 1 {
      ListLiterals(vs[1..]);
      LiteralsConcat([Lit(vs[0]), Comma], PrintList(vs[1..]));
      EraseListHead(SQLite, 0, vs[0]);
      assert [vs[0]] + vs[1..] == vs;
    }
  }

  lemma {:induction false} ErasedListStep(d: Dialect, start: nat, v: Value, vs: seq<Value>)
    requires vs != []
    requires Erase(d, start + 1, PrintList(vs)) == Join(PlaceholderTexts(d, start + 1, |vs|), Comma)
    ensures Erase(d, start, [Lit(v), Comma] + PrintList(vs)) == Join(PlaceholderTexts(d, start, |vs| + 1), Comma)
  {
    var joined := Join(PlaceholderTexts(d, start + 1, |vs|), Comma);
    EraseConcat(d, start, [Lit(v), Comma], PrintList(vs));
    EraseListHead(d, start, v);
    PlaceholderTextsStep(d, start, |vs|);
    JoinFirst([Placeholder(d, start)], PlaceholderTexts(d, start + 1, |vs|), Comma);
    assert [Placeholder(d, start), Comma] + joined == [Placeholder(d, start)] + [Comma] + joined;
  }

  lemma {:induction false} ErasedList(d: Dialect, start: nat, vs: seq<Value>)
    ensures Erase(d, start, PrintList(vs)) == Join(PlaceholderTexts(d, start, |vs|), Comma)
    decreases vs
  {
    if |vs| == 1 {
      assert [Lit(vs[0])][1..] == [];
    } else if |vs| > 1 {
      ErasedList(d, start + 1, vs[1..]);
      ErasedListStep(d, start, vs[0], vs[1..]);
    }
  }

  // ---- Single predicates

  lemma {:induction false} EraseWithoutLiterals(d: Dialect, start: nat, ts: seq<Token>)
    requires forall t | t in ts :: !t.Lit?
    ensures Erase(d, start, ts) == ts && Literals(ts) == []
    decreases ts
  {
    if ts != [] {
      assert ts[0] in ts;
      EraseWithoutLiterals(d, start, ts[1..]);
    }
  }

  lemma {:induction false} PrintOneTest(p: Predicate)
    ensures PrintTerm([Factor(false, Test(p))]) == PrintPredicate(p)
  {
    assert PrintFactor(Factor(false, Test(p))) == [] + PrintPredicate(p);
  }

  lemma {:induction false} PrintsConstant(d: Dialect, start: nat, p: Predicate, text: seq<Token>)
    requires !p.In? && PrintPredicate(p) == text && forall t | t in text :: !t.Lit?
    ensures Prints(d, start, [Factor(false, Test(p))], text, [], start)
  {
    PrintOneTest(p);
    EraseWithoutLiterals(d, start, text);
  }

  lemma {:induction false} PrintsLiteral(d: Dialect, start: nat, p: Predicate, text: seq<Token>, v: Value)
    requires !p.In? && PrintPredicate(p) == text + [Lit(v)] && forall t | t in text :: !t.Lit?
    ensures Prints(d, start, [Factor(false, Test(p))], text + [Placeholder(d, start)], [v], start + 1)
  {
    PrintOneTest(p);
    EraseConcat(d, start, text, [Lit(v)]);
    LiteralsConcat(text, [Lit(v)]);
    EraseWithoutLiterals(d, start, text);
    assert [Lit(v)][1..] == [];
  }

  lemma {:induction false} PrintsMembership(d: Dialect, start: nat, ref: Ref, neg: bool, vs: seq<Value>)
    requires vs != []
    ensures Prints(d, start, [Factor(false, Test(In(ref, neg, vs)))],
                   [RefTok(ref)] + (if neg then [KwNot] else []) + [KwIn, LParen] +
                   Join(PlaceholderTexts(d, start, |vs|), Comma) + [RParen],
                   vs, start + |vs|)
  {
    var head := [RefTok(ref)] + (if neg then [KwNot] else []) + [KwIn];
    PrintOneTest(In(ref, neg, vs));
    PrintMembership(ref, neg, vs);
    ErasedMembers(d, start, head, vs);
    var list := Join(PlaceholderTexts(d, start, |vs|), Comma);
    assert head + ([LParen] + list + [RParen]) ==
      [RefTok(ref)] + (if neg then [KwNot] else []) + [KwIn, LParen] + list + [RParen];
  }

  lemma {:induction false} PrintMembership(ref: Ref, neg: bool, vs: seq<Value>)
    ensures PrintPredicate(In(ref, neg, vs)) ==
            ([RefTok(ref)] + (if neg then [KwNot] else []) + [KwIn]) + ([LParen] + PrintList(vs) + [RParen])
  {
    var list := PrintList(vs);
    var head := [RefTok(ref)] + (if neg then [KwNot] else []);
    assert [KwIn, LParen] + list + [RParen] == [KwIn] + ([LParen] + list + [RParen]);
    ConcatAssociates(head, [KwIn], [LParen] + list + [RParen]);
  }

  lemma {:induction false} ErasedMembers(d: Dialect, start: nat, head: seq<Token>, vs: seq<Value>)
    requires forall t | t in head :: !t.Lit?
    ensures var members := head + ([LParen] + PrintList(vs) + [RParen]);
      Literals(members) == vs &&
      Erase(d, start, members) == head + ([LParen] + Join(PlaceholderTexts(d, start, |vs|), Comma) + [RParen])
  {
    var members := [LParen] + PrintList(vs) + [RParen];
    EraseConcat(d, start, head, members);
    LiteralsConcat(head, members);
    EraseWithoutLiterals(d, start, head);
    EraseParens(d, start, PrintList(vs));
    ErasedList(d, start, vs);
    ListLiterals(vs);
  }

  lemma {:induction false} EraseLength(d: Dialect, start: nat, ts: seq<Token>)
    ensures |Erase(d, start, ts)| == |ts|
    decreases ts
  {
    if ts != [] {
      EraseLength(d, if ts[0].Lit? then start + 1 else start, ts[1..]);
    }
  }

  /** An empty text is the text of no factors. */
  lemma {:induction false} EmptyText(d: Dialect, start: nat, fs: seq<Factor>, text: seq<Token>, args: seq<Value>,
                                     next: nat)
    requires Prints(d, start, fs, text, args, next)
    ensures text == [] <==> fs == []
    ensures fs == [] ==> args == [] && next == start
  {
    EraseLength(d, start, PrintTerm(fs));
    if fs != [] {
      assert PrintPrimary(fs[0].primary) != [];
      assert |PrintTerm(fs)| >= |PrintFactor(fs[0])|;
    }
  }

  // ---- What is dropped

  lemma {:induction false} FlattenEmpty(parts: seq<seq<Factor>>)
    ensures Flatten(parts) == [] <==> forall i | 0 <= i < |parts| :: parts[i] == []
    decreases parts
  {
    if parts != [] {
      var n := |parts| - 1;
      FlattenEmpty(parts[..n]);
      assert forall i | 0 <= i < n :: parts[..n][i] == parts[i];
    }
  }

  lemma {:induction false} DisjunctsEmpty(parts: seq<seq<Factor>>)
    ensures Disjuncts(parts) == [] <==> forall i | 0 <= i < |parts| :: parts[i] == []
    decreases parts
  {
    if parts != [] {
      var n := |parts| - 1;
      DisjunctsEmpty(parts[..n]);
      assert forall i | 0 <= i < n :: parts[..n][i] == parts[i];
    }
  }

  /** No text is emitted exactly for the dropped queries, whatever the iteration orders. */
  lemma {:induction false} DroppedExactly(d: Dialect, q: Value, fs: seq<Factor>)
    requires q.Obj? && ClauseOf(d, q, fs)
    ensures fs == [] <==> Dropped(q)
    decreases q, 1
  {
    var order, parts :| Emits(d, q, order, parts) && fs == Flatten(parts);
    assert EmitsEntries(d, q, order, parts);
    FlattenEmpty(parts);
    forall i | 0 <= i < |order|
      ensures order[i] in q.fields && (parts[i] == [] <==> DroppedEntry(order[i], q.fields[order[i]]))
    {
      assert order[i] in q.fields;
      EntryDroppedExactly(d, order[i], q.fields[order[i]], parts[i]);
    }
    forall k | k in q.fields
      ensures exists i :: 0 <= i < |order| && order[i] == k
    {
      assert k in order;
    }
  }

  lemma {:induction false} EntryDroppedExactly(d: Dialect, field: string, v: Value, fs: seq<Factor>)
    requires EntryOf(d, field, v, fs)
    ensures fs == [] <==> DroppedEntry(field, v)
    decreases v, 3
  {
    if field == "$or" {
      var parts :| PartsOf(d, v, parts) && fs == Disjunction(parts);
      PartsDropped(d, v, parts);
      DisjunctsEmpty(parts);
    } else if field == "$and" {
      var parts :| PartsOf(d, v, parts) && fs == Flatten(parts);
      PartsDropped(d, v, parts);
      FlattenEmpty(parts);
    } else if field == "$not" {
      var sub :| ClauseOf(d, v, sub) && fs == Negation(sub);
      DroppedExactly(d, v, sub);
    } else if !IsOperator(field) && v.Obj? {
      var order, parts :| Enumerates(order, v.fields) && EmitsOperators(d, field, v.fields, order, parts) &&
        fs == Conjunction(Flatten(parts));
      OperatorsDropped(d, field, v.fields, order, parts);
    }
  }

  lemma {:induction false} PartsDropped(d: Dialect, v: Value, parts: seq<seq<Factor>>)
    requires PartsOf(d, v, parts)
    ensures |parts| == |Items(v)|
    ensures forall i | 0 <= i < |parts| :: parts[i] == [] <==> DroppedElement(Items(v)[i])
    decreases v, 2
  {
    forall i | 0 <= i < |parts|
      ensures parts[i] == [] <==> DroppedElement(Items(v)[i])
    {
      assert ElementOf(d, Items(v)[i], parts[i]);
      if Items(v)[i].Obj? {
        DroppedExactly(d, Items(v)[i], parts[i]);
      }
    }
  }

  lemma {:induction false} OperatorsDropped(d: Dialect, field: string, ops: map<string, Value>, order: seq<string>,
                                            parts: seq<seq<Factor>>)
    requires Enumerates(order, ops) && EmitsOperators(d, field, ops, order, parts)
    ensures Flatten(parts) == [] <==> forall op | op in ops :: op !in OPERATORS
  {
    hide FieldOpOf;
    FlattenEmpty(parts);
    forall i | 0 <= i < |order|
      ensures parts[i] == [] <==> order[i] !in OPERATORS
    {
      OnlyOthersDropped(order[i]);
      assert EmitsOperator(d, field, ops, order[i], parts[i]);
    }
    forall op | op in ops
      ensures exists i :: 0 <= i < |order| && order[i] == op
    {
      assert op in order;
    }
  }
}
