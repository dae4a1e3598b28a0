/** Search conditions of SQL-92 (section 8.12): tokens, parse trees, a printer,
    and a recursive-descent parser. */
module Sql {
  import opened Values

  datatype CompareOp = Eq | Ne | Gt | Ge | Lt | Le

  /** A table column, or a path into the JSON column `data`. */
  datatype Ref = Column(name: string) | JsonPath(path: string)

  datatype Token =
    | RefTok(ref: Ref)
    | OpTok(op: CompareOp)
    | Lit(v: Value)
    | Question
    | Dollar(n: nat)
    | Digit(d: nat)
    | LengthFn
    | KwAnd | KwOr | KwNot | KwIn | KwIs | KwNull | KwLike
    | Tilde | LParen | RParen | Comma

  datatype Predicate =
    | Compare(ref: Ref, op: CompareOp, lit: Value)
    | In(ref: Ref, negated: bool, lits: seq<Value>)
    | Like(ref: Ref, lit: Value)
    | Regex(ref: Ref, lit: Value)
    | NullTest(ref: Ref, negated: bool)
    | Length(ref: Ref, lit: Value)
    | Digits(left: nat, right: nat)

  /** The grammar's levels: a search condition is an OR of terms, a term an AND
      of factors, a factor an optional NOT before a predicate or parentheses. */
  datatype Search = Search(terms: seq<Term>)
  datatype Term = Term(factors: seq<Factor>)
  datatype Factor = Factor(negated: bool, primary: Primary)
  datatype Primary = Test(p: Predicate) | Paren(s: Search)

  predicate WellFormed(f: Factor) {
    match f.primary
    case Test(p) => p.In? ==> p.lits != []
    case Paren(s) => WellFormedSearch(s)
  }

  predicate WellFormedTerm(fs: seq<Factor>) {
    fs != [] && forall i | 0 <= i < |fs| :: WellFormed(fs[i])
  }

  predicate WellFormedSearch(s: Search) {
    s.terms != [] && forall i | 0 <= i < |s.terms| :: WellFormedTerm(s.terms[i].factors)
  }

  // ---- Printing

  function PrintList(vs: seq<Value>): seq<Token> {
    if vs == [] then []
    else if |vs| == 1 then [Lit(vs[0])]
    else [Lit(vs[0]), Comma] + PrintList(vs[1..])
  }

  function PrintMembers(vs: seq<Value>): seq<Token> {
    [KwIn, LParen] + PrintList(vs) + [RParen]
  }

  function PrintPredicate(p: Predicate): seq<Token> {
    match p
    case Compare(r, op, v) => [RefTok(r), OpTok(op), Lit(v)]
    case In(r, neg, vs) =>
      [RefTok(r)] + (if neg then [KwNot] else []) + PrintMembers(vs)
    case Like(r, v) => [RefTok(r), KwLike, Lit(v)]
    case Regex(r, v) => [RefTok(r), Tilde, Lit(v)]
    case NullTest(r, neg) => [RefTok(r), KwIs] + (if neg then [KwNot] else []) + [KwNull]
    case Length(r, v) => [LengthFn, LParen, RefTok(r), RParen, OpTok(Eq), Lit(v)]
    case Digits(a, b) => [Digit(a), OpTok(Eq), Digit(b)]
  }

  function PrintPrimary(p: Primary): seq<Token> {
    match p
    case Test(q) => PrintPredicate(q)
    case Paren(s) => [LParen] + PrintSearch(s.terms) + [RParen]
  }

  function PrintFactor(f: Factor): seq<Token> {
    (if f.negated then [KwNot] else []) + PrintPrimary(f.primary)
  }

  function PrintTerm(fs: seq<Factor>): seq<Token> {
    if fs == [] then []
    else if |fs| == 1 then PrintFactor(fs[0])
    else PrintFactor(fs[0]) + [KwAnd] + PrintTerm(fs[1..])
  }

  function PrintSearch(terms: seq<Term>): seq<Token> {
    if terms == [] then []
    else if |terms| == 1 then PrintTerm(terms[0].factors)
    else PrintTerm(terms[0].factors) + [KwOr] + PrintSearch(terms[1..])
  }

  // ---- Parsing

  function ParseList(ts: seq<Token>): (r: Option<(seq<Value>, seq<Token>)>)
    ensures r.Some? ==> |r.value.1| < |ts|
  {
    if ts == [] || !ts[0].Lit? then None
    else if |ts| > 1 && ts[1] == Comma then
      var (vs, rest) :- ParseList(ts[2..]);
      Some(([ts[0].v] + vs, rest))
    else Some(([ts[0].v], ts[1..]))
  }

  function ParseIn(r: Ref, neg: bool, ts: seq<Token>): (res: Option<(Predicate, seq<Token>)>)
    ensures res.Some? ==> |res.value.1| < |ts|
  {
    if |ts| < 2 || ts[0] != KwIn || ts[1] != LParen then None
    else
      var (vs, rest) :- ParseList(ts[2..]);
      if rest == [] || rest[0] != RParen then None else Some((In(r, neg, vs), rest[1..]))
  }

  /** A predicate's text after its column reference. */
  function ParseAfterRef(r: Ref, ts: seq<Token>): (res: Option<(Predicate, seq<Token>)>)
    ensures res.Some? ==> |res.value.1| < |ts|
  {
    if |ts| < 2 then None
    else if ts[0].OpTok? then if ts[1].Lit? then Some((Compare(r, ts[0].op, ts[1].v), ts[2..])) else None
    else if ts[0] == KwLike then if ts[1].Lit? then Some((Like(r, ts[1].v), ts[2..])) else None
    else if ts[0] == Tilde then if ts[1].Lit? then Some((Regex(r, ts[1].v), ts[2..])) else None
    else if ts[0] == KwIs then
      if ts[1] == KwNull then Some((NullTest(r, false), ts[2..]))
      else if ts[1] == KwNot && |ts| > 2 && ts[2] == KwNull then Some((NullTest(r, true), ts[3..]))
      else None
    else if ts[0] == KwNot then ParseIn(r, true, ts[1..])
    else ParseIn(r, false, ts)
  }

  function ParsePredicate(ts: seq<Token>): (r: Option<(Predicate, seq<Token>)>)
    ensures r.Some? ==> |r.value.1| < |ts|
  {
    if ts == [] then None
    else if ts[0].RefTok? then ParseAfterRef(ts[0].ref, ts[1..])
    else if ts[0].LengthFn? then
      if |ts| > 5 && ts[1] == LParen && ts[2].RefTok? && ts[3] == RParen && ts[4] == OpTok(Eq) && ts[5].Lit?
      then Some((Length(ts[2].ref, ts[5].v), ts[6..])) else None
    else if |ts| > 2 && ts[0].Digit? && ts[1] == OpTok(Eq) && ts[2].Digit? then
      Some((Digits(ts[0].d, ts[2].d), ts[3..]))
    else None
  }

  function ParsePrimary(ts: seq<Token>): (r: Option<(Primary, seq<Token>)>)
    ensures r.Some? ==> |r.value.1| < |ts|
    decreases |ts|, 0
  {
    if ts != [] && ts[0] == LParen then
      var (s, rest) :- ParseSearch(ts[1..]);
      if rest == [] || rest[0] != RParen then None else Some((Paren(s), rest[1..]))
    else
      var (p, rest) :- ParsePredicate(ts);
      Some((Test(p), rest))
  }

  function ParseFactor(ts: seq<Token>): (r: Option<(Factor, seq<Token>)>)
    ensures r.Some? ==> |r.value.1| < |ts|
    decreases |ts|, 1
  {
    if ts != [] && ts[0] == KwNot then
      var (p, rest) :- ParsePrimary(ts[1..]);
      Some((Factor(true, p), rest))
    else
      var (p, rest) :- ParsePrimary(ts);
      Some((Factor(false, p), rest))
  }

  function ParseTerm(ts: seq<Token>): (r: Option<(seq<Factor>, seq<Token>)>)
    ensures r.Some? ==> |r.value.1| < |ts|
    decreases |ts|, 2
  {
    var (f, rest) :- ParseFactor(ts);
    if rest != [] && rest[0] == KwAnd then
      var (fs, rest') :- ParseTerm(rest[1..]);
      Some(([f] + fs, rest'))
    else Some(([f], rest))
  }

  function ParseSearch(ts: seq<Token>): (r: Option<(Search, seq<Token>)>)
    ensures r.Some? ==> |r.value.1| < |ts|
    decreases |ts|, 3
  {
    var (t, rest) :- ParseTerm(ts);
    if rest != [] && rest[0] == KwOr then
      var (s, rest') :- ParseSearch(rest[1..]);
      Some((Search([Term(t)] + s.terms), rest'))
    else Some((Search([Term(t)]), rest))
  }

  /** A whole WHERE text: nothing may be left over. */
  function ParseWhere(ts: seq<Token>): Option<Search> {
    var (s, rest) :- ParseSearch(ts);
    if rest == [] then Some(s) else None
  }

  // ---- Parsing undoes printing

  predicate StopsTerm(rest: seq<Token>) {
    rest == [] || rest[0] != KwAnd
  }

  predicate StopsSearch(rest: seq<Token>) {
    StopsTerm(rest) && (rest == [] || rest[0] != KwOr)
  }

  lemma {:induction false} ParseListStep(v: Value, tail: seq<Token>)
    requires ParseList(tail).Some?
    ensures var r := ParseList(tail).value;
      ParseList([Lit(v), Comma] + tail) == Some(([v] + r.0, r.1))
  {
    assert ([Lit(v), Comma] + tail)[2..] == tail;
  }

  lemma {:induction false} ParseListPrinted(vs: seq<Value>, rest: seq<Token>)
    requires vs != []
    requires rest == [] || rest[0] != Comma
    ensures ParseList(PrintList(vs) + rest) == Some((vs, rest))
  {
    if |vs| == 1 {
      assert ([Lit(vs[0])] + rest)[1..] == rest;
      assert [vs[0]] == vs;
    } else {
      ParseListPrinted(vs[1..], rest);
      ParseListStep(vs[0], PrintList(vs[1..]) + rest);
      ConcatAssociates([Lit(vs[0]), Comma], PrintList(vs[1..]), rest);
      assert [vs[0]] + vs[1..] == vs;
    }
  }

  lemma {:induction false} ParseInPrinted(r: Ref, neg: bool, vs: seq<Value>, rest: seq<Token>)
    requires vs != []
    ensures ParseIn(r, neg, PrintMembers(vs) + rest) == Some((In(r, neg, vs), rest))
  {
    var ts := PrintMembers(vs) + rest;
    ParseListPrinted(vs, [RParen] + rest);
    assert ts[2..] == PrintList(vs) + ([RParen] + rest);
    assert ([RParen] + rest)[1..] == rest;
  }

  lemma {:induction false} ParseMembershipText(r: Ref, neg: bool, members: seq<Token>, rest: seq<Token>)
    requires |members| > 1 && members[0] == KwIn
    ensures ParsePredicate([RefTok(r)] + (if neg then [KwNot] else []) + members + rest) ==
            ParseIn(r, neg, members + rest)
  {
    var tail := members + rest;
    if neg {
      var ts := [RefTok(r)] + [KwNot] + members + rest;
      assert ts[1..] == [KwNot] + tail;
      assert ([KwNot] + tail)[1..] == tail;
    } else {
      var ts := [RefTok(r)] + [] + members + rest;
      assert ts[1..] == tail;
    }
  }

  lemma {:induction false} ParseMembershipPrinted(r: Ref, neg: bool, vs: seq<Value>, rest: seq<Token>)
    requires vs != []
    ensures ParsePredicate(PrintPredicate(In(r, neg, vs)) + rest) == Some((In(r, neg, vs), rest))
  {
    var members := PrintMembers(vs);
    ParseInPrinted(r, neg, vs, rest);
    ParseMembershipText(r, neg, members, rest);
  }

  lemma {:induction false} ParseNullTestPrinted(r: Ref, neg: bool, rest: seq<Token>)
    ensures ParsePredicate(PrintPredicate(NullTest(r, neg)) + rest) == Some((NullTest(r, neg), rest))
  {
    var after := (if neg then [KwIs, KwNot, KwNull] else [KwIs, KwNull]) + rest;
    assert PrintPredicate(NullTest(r, neg)) + rest == [RefTok(r)] + after;
    assert after[if neg then 3 else 2..] == rest;
  }

  lemma {:induction false} ParsePredicatePrinted(p: Predicate, rest: seq<Token>)
    requires p.In? ==> p.lits != []
    ensures ParsePredicate(PrintPredicate(p) + rest) == Some((p, rest))
  {
    var ts := PrintPredicate(p) + rest;
    match p {
      case In(r, neg, vs) =>
        ParseMembershipPrinted(r, neg, vs, rest);
      case NullTest(r, neg) =>
        ParseNullTestPrinted(r, neg, rest);
      case Length(r, v) =>
        assert ts[6..] == rest;
      case Digits(a, b) =>
        assert ts[3..] == rest;
      case Compare(r, op, v) =>
        assert ts == [RefTok(r)] + ([OpTok(op), Lit(v)] + rest);
      case Like(r, v) =>
        assert ts == [RefTok(r)] + ([KwLike, Lit(v)] + rest);
      case Regex(r, v) =>
        assert ts == [RefTok(r)] + ([Tilde, Lit(v)] + rest);
    }
  }

  lemma {:induction false} ParseParenText(s: Search, text: seq<Token>, rest: seq<Token>)
    requires ParseSearch(text + ([RParen] + rest)) == Some((s, [RParen] + rest))
    ensures ParsePrimary([LParen] + text + [RParen] + rest) == Some((Paren(s), rest))
  {
    var ts := [LParen] + text + [RParen] + rest;
    assert ts[1..] == text + ([RParen] + rest);
    assert ([RParen] + rest)[1..] == rest;
  }

  lemma {:induction false} ParsePrimaryPrinted(p: Primary, rest: seq<Token>)
    requires WellFormed(Factor(false, p))
    ensures ParsePrimary(PrintPrimary(p) + rest) == Some((p, rest))
    ensures PrintPrimary(p) != [] && PrintPrimary(p)[0] != KwNot
    decreases p
  {
    match p {
      case Test(q) =>
        ParsePredicatePrinted(q, rest);
      case Paren(s) =>
        ParseSearchPrinted(s, [RParen] + rest);
        ParseParenText(s, PrintSearch(s.terms), rest);
    }
  }

  lemma {:induction false} ParseFactorText(f: Factor, text: seq<Token>, rest: seq<Token>)
    requires ParsePrimary(text + rest) == Some((f.primary, rest)) && text != [] && text[0] != KwNot
    ensures ParseFactor((if f.negated then [KwNot] else []) + text + rest) == Some((f, rest))
  {
    if f.negated {
      assert ([KwNot] + text + rest)[1..] == text + rest;
    } else {
      assert [] + text + rest == text + rest;
    }
  }

  lemma {:induction false} ParseFactorPrinted(f: Factor, rest: seq<Token>)
    requires WellFormed(f)
    ensures ParseFactor(PrintFactor(f) + rest) == Some((f, rest))
    decreases f
  {
    ParsePrimaryPrinted(f.primary, rest);
    ParseFactorText(f, PrintPrimary(f.primary), rest);
  }

  lemma {:induction false} ParseTermStep(f: Factor, text: seq<Token>, tail: seq<Token>)
    requires ParseTerm(tail).Some?
    requires ParseFactor(text + ([KwAnd] + tail)) == Some((f, [KwAnd] + tail))
    ensures var r := ParseTerm(tail).value;
      ParseTerm(text + ([KwAnd] + tail)) == Some(([f] + r.0, r.1))
  {
    assert ([KwAnd] + tail)[1..] == tail;
  }

  lemma {:induction false} ParseTermPrinted(fs: seq<Factor>, rest: seq<Token>)
    requires WellFormedTerm(fs) && StopsTerm(rest)
    ensures ParseTerm(PrintTerm(fs) + rest) == Some((fs, rest))
    decreases fs
  {
    if |fs| == 1 {
      ParseFactorPrinted(fs[0], rest);
      assert [fs[0]] == fs;
    } else {
      var text, tail := PrintFactor(fs[0]), PrintTerm(fs[1..]) + rest;
      ParseFactorPrinted(fs[0], [KwAnd] + tail);
      ParseTermPrinted(fs[1..], rest);
      ParseTermStep(fs[0], text, tail);
      ConcatRightmost(text, [KwAnd], PrintTerm(fs[1..]), rest);
      assert [fs[0]] + fs[1..] == fs;
    }
  }

  lemma {:induction false} ParseSearchStep(fs: seq<Factor>, text: seq<Token>, tail: seq<Token>)
    requires ParseSearch(tail).Some?
    requires ParseTerm(text + ([KwOr] + tail)) == Some((fs, [KwOr] + tail))
    ensures var r := ParseSearch(tail).value;
      ParseSearch(text + ([KwOr] + tail)) == Some((Search([Term(fs)] + r.0.terms), r.1))
  {
    assert ([KwOr] + tail)[1..] == tail;
  }

  lemma {:induction false} ParseSearchPrinted(s: Search, rest: seq<Token>)
    requires WellFormedSearch(s) && StopsSearch(rest)
    ensures ParseSearch(PrintSearch(s.terms) + rest) == Some((s, rest))
    decreases s.terms
  {
    var terms := s.terms;
    var fs := terms[0].factors;
    if |terms| == 1 {
      ParseTermPrinted(fs, rest);
      assert [Term(fs)] == terms;
    } else {
      var tail := PrintSearch(terms[1..]) + rest;
      ParseTermPrinted(fs, [KwOr] + tail);
      ParseSearchPrinted(Search(terms[1..]), rest);
      ParseSearchStep(fs, PrintTerm(fs), tail);
      ConcatRightmost(PrintTerm(fs), [KwOr], PrintSearch(terms[1..]), rest);
      assert [Term(fs)] + terms[1..] == terms;
    }
  }

  /** The text of a well-formed condition parses back to that condition. */
  lemma {:induction false} ParseWherePrinted(s: Search)
    requires WellFormedSearch(s)
    ensures ParseWhere(PrintSearch(s.terms)) == Some(s)
  {
    ParseSearchPrinted(s, []);
    assert PrintSearch(s.terms) + [] == PrintSearch(s.terms);
  }

  // ---- Placeholders

  datatype Dialect = SQLite | MySQL | Postgres

  function Placeholder(d: Dialect, index: nat): Token {
    if d.Postgres? then Dollar(index) else Question
  }

  predicate IsPlaceholder(t: Token) {
    t.Question? || t.Dollar?
  }

  /** The literals of a text, left to right. */
  function Literals(ts: seq<Token>): seq<Value> {
    if ts == [] then []
    else (if ts[0].Lit? then [ts[0].v] else []) + Literals(ts[1..])
  }

  /** The text with its literals replaced by placeholders numbered from `start`. */
  function Erase(d: Dialect, start: nat, ts: seq<Token>): seq<Token>
    decreases ts
  {
    if ts == [] then []
    else if ts[0].Lit? then [Placeholder(d, start)] + Erase(d, start + 1, ts[1..])
    else [ts[0]] + Erase(d, start, ts[1..])
  }

  function Placeholders(ts: seq<Token>): seq<Token> {
    if ts == [] then []
    else (if IsPlaceholder(ts[0]) then [ts[0]] else []) + Placeholders(ts[1..])
  }

  /** What a driver does: `?` takes the next unused argument, `$n` the n-th of
      all. `None` when an argument is missing or, for `?`, one is left over. */
  function Bind(ts: seq<Token>, args: seq<Value>, used: nat): Option<seq<Token>>
    requires used <= |args|
  {
    if ts == [] then Some([])
    else match ts[0]
      case Question =>
        if used == |args| then None
        else
          var rest :- Bind(ts[1..], args, used + 1);
          Some([Lit(args[used])] + rest)
      case Dollar(n) =>
        if n < 1 || n > |args| then None
        else
          var rest :- Bind(ts[1..], args, used);
          Some([Lit(args[n - 1])] + rest)
      case t =>
        var rest :- Bind(ts[1..], args, used);
        Some([t] + rest)
  }

  lemma {:induction false} LiteralsConcat(a: seq<Token>, b: seq<Token>)
    ensures Literals(a + b) == Literals(a) + Literals(b)
  {
    if a == [] {
      assert a + b == b;
    } else {
      LiteralsConcat(a[1..], b);
      assert (a + b)[0] == a[0] && (a + b)[1..] == a[1..] + b;
      ConcatAssociates(if a[0].Lit? then [a[0].v] else [], Literals(a[1..]), Literals(b));
    }
  }

  lemma {:induction false} EraseConcat(d: Dialect, start: nat, a: seq<Token>, b: seq<Token>)
    ensures Erase(d, start, a + b) == Erase(d, start, a) + Erase(d, start + |Literals(a)|, b)
    decreases a
  {
    if a == [] {
      assert a + b == b;
    } else {
      var start' := if a[0].Lit? then start + 1 else start;
      EraseConcat(d, start', a[1..], b);
      assert (a + b)[0] == a[0] && (a + b)[1..] == a[1..] + b;
      ConcatAssociates([if a[0].Lit? then Placeholder(d, start) else a[0]],
        Erase(d, start', a[1..]), Erase(d, start + |Literals(a)|, b));
    }
  }

  predicate Printed(ts: seq<Token>) {
    forall t | t in ts :: !IsPlaceholder(t)
  }

  function Numbered(d: Dialect, start: nat, n: nat): seq<Token> {
    seq(n, i requires 0 <= i => Placeholder(d, start + i))
  }

  lemma {:induction false} NumberedAt(d: Dialect, start: nat, n: nat)
    ensures |Numbered(d, start, n)| == n
    ensures forall k | 0 <= k < n :: Numbered(d, start, n)[k] == if d.Postgres? then Dollar(start + k) else Question
  {
    forall k: nat | k < n
      ensures Numbered(d, start, n)[k] == if d.Postgres? then Dollar(start + k) else Question
    {
      assert Numbered(d, start, n)[k] == Placeholder(d, start + k);
    }
  }

  lemma {:induction false} NumberedStep(d: Dialect, start: nat, n: nat)
    ensures Numbered(d, start, n + 1) == [Placeholder(d, start)] + Numbered(d, start + 1, n)
  {
  }

  /** The erased text has one placeholder per literal, in order. */
  lemma {:induction false} ErasedPlaceholders(d: Dialect, start: nat, ts: seq<Token>)
    requires Printed(ts)
    ensures Placeholders(Erase(d, start, ts)) == Numbered(d, start, |Literals(ts)|)
    decreases ts
  {
    if ts != [] {
      assert ts[0] in ts;
      if ts[0].Lit? {
        ErasedPlaceholders(d, start + 1, ts[1..]);
        assert Erase(d, start, ts)[1..] == Erase(d, start + 1, ts[1..]);
        NumberedStep(d, start, |Literals(ts[1..])|);
      } else {
        ErasedPlaceholders(d, start, ts[1..]);
        assert Erase(d, start, ts)[1..] == Erase(d, start, ts[1..]);
      }
    }
  }

  lemma {:induction false} BindPlaceholder(d: Dialect, rest: seq<Token>, args: seq<Value>, k: nat)
    requires k < |args|
    requires Bind(rest, args, if d.Postgres? then 0 else k + 1).Some?
    ensures var r := Bind(rest, args, if d.Postgres? then 0 else k + 1);
      Bind([Placeholder(d, k + 1)] + rest, args, if d.Postgres? then 0 else k) == Some([Lit(args[k])] + r.value)
  {
    assert ([Placeholder(d, k + 1)] + rest)[1..] == rest;
  }

  lemma {:induction false} BindOther(t: Token, rest: seq<Token>, args: seq<Value>, used: nat)
    requires used <= |args| && !IsPlaceholder(t) && Bind(rest, args, used).Some?
    ensures Bind([t] + rest, args, used) == Some([t] + Bind(rest, args, used).value)
  {
    assert ([t] + rest)[1..] == rest;
  }

  /** Binding the erased text to the literals restores the text. */
  lemma {:induction false} BindErased(d: Dialect, ts: seq<Token>, args: seq<Value>, k: nat)
    requires Printed(ts)
    requires k + |Literals(ts)| == |args| && args[k..] == Literals(ts)
    ensures Bind(Erase(d, k + 1, ts), args, if d.Postgres? then 0 else k) == Some(ts)
    decreases ts
  {
    if ts != [] {
      assert [ts[0]] + ts[1..] == ts && ts[0] in ts;
      if ts[0].Lit? {
        assert args[k] == args[k..][0] && args[k + 1..] == args[k..][1..];
        BindErased(d, ts[1..], args, k + 1);
        BindPlaceholder(d, Erase(d, k + 2, ts[1..]), args, k);
      } else {
        BindErased(d, ts[1..], args, k);
        BindOther(ts[0], Erase(d, k + 1, ts[1..]), args, if d.Postgres? then 0 else k);
      }
    }
  }

  lemma {:induction false} PrintedList(vs: seq<Value>)
    ensures Printed(PrintList(vs))
  {
    if |vs| > 1 {
      PrintedList(vs[1..]);
    }
  }

  lemma {:induction false} PrintedPredicate(p: Predicate)
    ensures Printed(PrintPredicate(p))
  {
    if p.In? {
      PrintedList(p.lits);
    }
  }

  lemma {:induction false} PrintedFactor(f: Factor)
    ensures Printed(PrintFactor(f))
    decreases f
  {
    match f.primary {
      case Test(p) => PrintedPredicate(p);
      case Paren(s) => PrintedSearch(s.terms);
    }
  }

  lemma {:induction false} PrintedTerm(fs: seq<Factor>)
    ensures Printed(PrintTerm(fs))
    decreases fs
  {
    if fs != [] {
      PrintedFactor(fs[0]);
      PrintedTerm(fs[1..]);
    }
  }

  lemma {:induction false} PrintedSearch(terms: seq<Term>)
    ensures Printed(PrintSearch(terms))
    decreases terms
  {
    if terms != [] {
      PrintedTerm(terms[0].factors);
      PrintedSearch(terms[1..]);
    }
  }
}
