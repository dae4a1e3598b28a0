/** The three-valued meaning of a search condition (SQL-92, section 8.12). */
module Truth {
  import opened Values
  import opened Sql
  import Patterns

  datatype TV = T | F | U

  function Conj(a: TV, b: TV): TV {
    if a == F || b == F then F else if a == U || b == U then U else T
  }

  function Disj(a: TV, b: TV): TV {
    if a == T || b == T then T else if a == U || b == U then U else F
  }

  function Neg(a: TV): TV {
    if a == T then F else if a == F then T else U
  }

  function Of(b: bool): TV {
    if b then T else F
  }

  /** A table row: its columns, and the object in its column `data`. */
  datatype Row = Row(cells: Document, data: Document)

  /** What differs between databases: LIKE's escape character, if any, and the
      regex operator `~` as the set of its (pattern, string) pairs. */
  datatype Database = Database(escape: Option<char>, regex: iset<(string, string)>)

  function Split(path: string): (parts: seq<string>)
    ensures parts != []
  {
    if path == [] then [[]]
    else
      var rest := Split(path[1..]);
      if path[0] == '.' then [[]] + rest else [[path[0]] + rest[0]] + rest[1..]
  }

  function Joined(parts: seq<string>): string
    requires parts != []
  {
    if |parts| == 1 then parts[0] else parts[0] + "." + Joined(parts[1..])
  }

  /** The parts of a path are what its dots separate. */
  lemma {:induction false} SplitAtDots(path: string)
    ensures Joined(Split(path)) == path
    ensures forall i | 0 <= i < |Split(path)| :: '.' !in Split(path)[i]
    decreases path
  {
    if path != [] {
      SplitAtDots(path[1..]);
      var rest, parts := Split(path[1..]), Split(path);
      if path[0] == '.' {
        assert parts[1..] == rest;
      } else {
        assert parts[1..] == rest[1..];
      }
      assert path == [path[0]] + path[1..];
    }
  }

  /** JSON_EXTRACT along a path; NULL where the path leads nowhere. */
  function Extract(doc: Document, path: seq<string>): Value
    requires path != []
    decreases |path|
  {
    if path[0] !in doc then Null
    else if |path| == 1 then doc[path[0]]
    else if doc[path[0]].Obj? then Extract(doc[path[0]].fields, path[1..])
    else Null
  }

  function Fetch(ref: Ref, row: Row): Value {
    match ref
    case Column(name) => if name in row.cells then row.cells[name] else Null
    case JsonPath(path) => Extract(row.data, Split(path))
  }

  predicate Compares(op: CompareOp, a: Value, b: Value) {
    match op
    case Eq => a == b
    case Ne => a != b
    case Gt => Less(b, a)
    case Ge => Less(b, a) || a == b
    case Lt => Less(a, b)
    case Le => Less(a, b) || a == b
  }

  function EvalCompare(op: CompareOp, a: Value, b: Value): TV {
    if a.Null? || b.Null? then U else Of(Compares(op, a, b))
  }

  function EvalMember(v: Value, lits: seq<Value>): TV {
    if lits == [] then F else Disj(EvalCompare(Eq, v, lits[0]), EvalMember(v, lits[1..]))
  }

  ghost function EvalPredicate(p: Predicate, row: Row, db: Database): TV {
    match p
    case Compare(r, op, lit) => EvalCompare(op, Fetch(r, row), lit)
    case In(r, neg, lits) =>
      var m := EvalMember(Fetch(r, row), lits);
      if neg then Neg(m) else m
    case Like(r, lit) =>
      var v := Fetch(r, row);
      if v.Null? || lit.Null? then U
      else Of(v.Str? && lit.Str? && Patterns.Like(lit.s, v.s, db.escape))
    case Regex(r, lit) =>
      var v := Fetch(r, row);
      if v.Null? || lit.Null? then U
      else Of(v.Str? && lit.Str? && (lit.s, v.s) in db.regex)
    case NullTest(r, neg) => Of(Fetch(r, row).Null? != neg)
    case Length(r, lit) =>
      var v := Fetch(r, row);
      if v.Null? || lit.Null? then U
      else Of(v.IsArray() && lit == Num(|v.Elements()| as real))
    case Digits(a, b) => Of(a == b)
  }

  ghost function EvalFactor(f: Factor, row: Row, db: Database): TV {
    var v := match f.primary
      case Test(p) => EvalPredicate(p, row, db)
      case Paren(s) => EvalSearch(s.terms, row, db);
    if f.negated then Neg(v) else v
  }

  ghost function EvalTerm(fs: seq<Factor>, row: Row, db: Database): TV {
    if fs == [] then T else Conj(EvalFactor(fs[0], row, db), EvalTerm(fs[1..], row, db))
  }

  ghost function EvalSearch(terms: seq<Term>, row: Row, db: Database): TV {
    if terms == [] then F
    else Disj(EvalTerm(terms[0].factors, row, db), EvalSearch(terms[1..], row, db))
  }

  /** What a WHERE text and its arguments select by: bound, parsed and evaluated.
      Without a text every row is selected. `None` when binding or parsing fails. */
  ghost function Where(text: seq<Token>, args: seq<Value>, row: Row, db: Database): Option<TV> {
    if text == [] then Some(T)
    else
      var bound :- Bind(text, args, 0);
      var s :- ParseWhere(bound);
      Some(EvalSearch(s.terms, row, db))
  }

  lemma {:induction false} EvalTermConcat(a: seq<Factor>, b: seq<Factor>, row: Row, db: Database)
    ensures EvalTerm(a + b, row, db) == Conj(EvalTerm(a, row, db), EvalTerm(b, row, db))
    decreases a
  {
    if a == [] {
      assert a + b == b;
    } else {
      EvalTermConcat(a[1..], b, row, db);
      assert (a + b)[1..] == a[1..] + b;
    }
  }
}
