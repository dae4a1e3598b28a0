/** ORDER BY as both stores ask for it: the fields to sort by are a map, and Go
    iterates it in an order of its own. */
module Ordering {
  import opened Values
  import opened Sql
  import opened Truth
  import opened QueryBuilder

  /** How the database orders values of any types: may the first stand before the second? */
  type Order = (Value, Value) -> bool

  ghost predicate IsOrder(order: Order) {
    && (forall a, b :: order(a, b) || order(b, a))
    && forall a, b, c | order(a, b) && order(b, c) :: order(a, c)
  }

  /** By one field, ascending unless its direction is -1. */
  predicate ByField(field: string, direction: int, a: Row, b: Row, columns: set<string>, order: Order) {
    var x, y := Fetch(RefOf(columns, field), a), Fetch(RefOf(columns, field), b);
    if direction == -1 then order(y, x) else order(x, y)
  }

  /** By the first of the fields that tells the rows apart. */
  predicate Precedes(keys: seq<string>, sort: map<string, int>, a: Row, b: Row, columns: set<string>, order: Order)
    requires forall k | k in keys :: k in sort
  {
    keys == [] ||
    (ByField(keys[0], sort[keys[0]], a, b, columns, order) &&
     (ByField(keys[0], sort[keys[0]], b, a, columns, order) ==>
        Precedes(keys[1..], sort, a, b, columns, order)))
  }

  lemma {:induction false} PrecedesTotal(keys: seq<string>, sort: map<string, int>, a: Row, b: Row,
                                         columns: set<string>, order: Order)
    requires IsOrder(order) && forall k | k in keys :: k in sort
    ensures Precedes(keys, sort, a, b, columns, order) || Precedes(keys, sort, b, a, columns, order)
    decreases keys
  {
    if keys != [] {
      PrecedesTotal(keys[1..], sort, a, b, columns, order);
    }
  }

  lemma {:induction false} PrecedesThrough(keys: seq<string>, sort: map<string, int>, a: Row, b: Row, c: Row,
                                           columns: set<string>, order: Order)
    requires IsOrder(order) && forall k | k in keys :: k in sort
    requires Precedes(keys, sort, a, b, columns, order) && Precedes(keys, sort, b, c, columns, order)
    ensures Precedes(keys, sort, a, c, columns, order)
    decreases keys
  {
    if keys != [] {
      var x, y, z := Fetch(RefOf(columns, keys[0]), a), Fetch(RefOf(columns, keys[0]), b),
                     Fetch(RefOf(columns, keys[0]), c);
      hide Fetch, RefOf;
      if ByField(keys[0], sort[keys[0]], c, a, columns, order) {
        assert order(x, y) && order(y, x) && order(y, z) && order(z, y);
        PrecedesThrough(keys[1..], sort, a, b, c, columns, order);
      }
    }
  }

  predicate IsSorted(hits: seq<nat>, keys: seq<string>, sort: map<string, int>, rows: seq<Row>, columns: set<string>,
                     order: Order)
    requires (forall k | k in keys :: k in sort) && forall j | 0 <= j < |hits| :: hits[j] < |rows|
  {
    forall i, j | 0 <= i < j < |hits| :: Precedes(keys, sort, rows[hits[i]], rows[hits[j]], columns, order)
  }

  /** An answer to a query that selects `hits`: the same rows, sorted by the fields in
      some iteration order; without fields, in the order of the table. */
  ghost predicate Answers(answer: seq<nat>, hits: seq<nat>, sort: map<string, int>, rows: seq<Row>,
                          columns: set<string>, order: Order)
    requires (forall j | 0 <= j < |hits| :: hits[j] < |rows|) && forall j | 0 <= j < |answer| :: answer[j] < |rows|
  {
    if sort == map[] then answer == hits
    else
      multiset(answer) == multiset(hits) &&
      exists keys :: Enumerates(keys, sort) && IsSorted(answer, keys, sort, rows, columns, order)
  }

  /** A row stands before another by each field on which all earlier fields tie:
      ascending, or with the direction -1 descending. */
  lemma {:induction false} PrecedesByFields(keys: seq<string>, sort: map<string, int>, a: Row, b: Row,
                                            columns: set<string>, order: Order)
    requires forall k | k in keys :: k in sort
    ensures Precedes(keys, sort, a, b, columns, order) <==>
      forall i | 0 <= i < |keys| && Ties(keys[..i], a, b, columns, order) ::
        var x, y := Fetch(RefOf(columns, keys[i]), a), Fetch(RefOf(columns, keys[i]), b);
        if sort[keys[i]] == -1 then order(y, x) else order(x, y)
    decreases keys
  {
    hide Fetch, RefOf;
    if keys != [] {
      PrecedesByFields(keys[1..], sort, a, b, columns, order);
      forall i | 0 < i < |keys|
        ensures Ties(keys[..i], a, b, columns, order) <==>
                Ties([keys[0]], a, b, columns, order) && Ties(keys[1..][..i - 1], a, b, columns, order)
      {
        assert keys[..i] == [keys[0]] + keys[1..][..i - 1];
      }
      assert keys[..0] == [];
    }
  }

  /** The order does not tell the rows apart by any of the fields. */
  predicate Ties(keys: seq<string>, a: Row, b: Row, columns: set<string>, order: Order) {
    forall k | k in keys ::
      order(Fetch(RefOf(columns, k), a), Fetch(RefOf(columns, k), b)) &&
      order(Fetch(RefOf(columns, k), b), Fetch(RefOf(columns, k), a))
  }

  /** The place of one more row. */
  method Place(sorted: seq<nat>, hit: nat, keys: seq<string>, sort: map<string, int>, rows: seq<Row>,
               columns: set<string>, order: Order) returns (place: nat)
    requires IsOrder(order) && (forall k | k in keys :: k in sort) && hit < |rows|
    requires (forall j | 0 <= j < |sorted| :: sorted[j] < |rows|) && IsSorted(sorted, keys, sort, rows, columns, order)
    ensures place <= |sorted|
    ensures IsSorted(sorted[..place] + [hit] + sorted[place..], keys, sort, rows, columns, order)
  {
    place := 0;
    while place < |sorted| && !Precedes(keys, sort, rows[hit], rows[sorted[place]], columns, order)
      invariant place <= |sorted|
      invariant forall j | 0 <= j < place :: Precedes(keys, sort, rows[sorted[j]], rows[hit], columns, order)
    {
      PrecedesTotal(keys, sort, rows[hit], rows[sorted[place]], columns, order);
      place := place + 1;
    }
    hide Precedes;
    forall j | place <= j < |sorted|
      ensures Precedes(keys, sort, rows[hit], rows[sorted[j]], columns, order)
    {
      if j > place {
        PrecedesThrough(keys, sort, rows[hit], rows[sorted[place]], rows[sorted[j]], columns, order);
      }
    }
  }

  lemma {:induction false} OneMore(answer: seq<nat>, place: nat, hit: nat)
    requires place <= |answer|
    ensures multiset(answer[..place] + [hit] + answer[place..]) == multiset(answer) + multiset{hit}
    ensures forall j | 0 <= j < |answer| + 1 ::
      var x := (answer[..place] + [hit] + answer[place..])[j];
      x == hit || x in answer
  {
    assert answer == answer[..place] + answer[place..];
  }

  /** The ORDER BY clause of a map of fields, and the rows as the database answers them. */
  method OrderBy(hits: seq<nat>, sort: map<string, int>, rows: seq<Row>, columns: set<string>, order: Order)
    returns (answer: seq<nat>)
    requires IsOrder(order) && forall j | 0 <= j < |hits| :: hits[j] < |rows|
    ensures forall j | 0 <= j < |answer| :: answer[j] < |rows|
    ensures Answers(answer, hits, sort, rows, columns, order)
  {
    if sort == map[] {
      return hits;
    }
    var keys := BuildOrderClause(sort);
    answer := [];
    assert IsSorted(answer, keys, sort, rows, columns, order);
    assert forall k | k in keys :: k in sort;
    hide Precedes, IsSorted, Enumerates, IsOrder;
    for i := 0 to |hits|
      invariant forall j | 0 <= j < |answer| :: answer[j] < |rows|
      invariant multiset(answer) == multiset(hits[..i])
      invariant IsSorted(answer, keys, sort, rows, columns, order)
    {
      var place := Place(answer, hits[i], keys, sort, rows, columns, order);
      assert hits[..i + 1] == hits[..i] + [hits[i]];
      OneMore(answer, place, hits[i]);
      answer := answer[..place] + [hits[i]] + answer[place..];
    }
    assert hits[..|hits|] == hits;
  }

  /** The fields in the order Go iterates them. */
  method BuildOrderClause(sort: map<string, int>) returns (keys: seq<string>)
    ensures Enumerates(keys, sort)
  {
    keys := [];
    var todo := sort;
    while todo != map[]
      invariant forall k :: k in sort <==> k in keys || k in todo
      invariant forall k | k in keys :: k !in todo
      invariant forall i, j | 0 <= i < j < |keys| :: keys[i] != keys[j]
      decreases |todo|
    {
      var k :| k in todo;
      assert todo.Keys == (todo - {k}).Keys + {k};
      assert forall i | 0 <= i < |keys| :: keys[i] in keys;
      todo := todo - {k};
      keys := keys + [k];
    }
  }

  // ---- Whether the answer is determined

  /** Every iteration order sorts all rows alike. */
  ghost predicate Determined(sort: map<string, int>, columns: set<string>, order: Order) {
    forall s, t, a, b | Enumerates(s, sort) && Enumerates(t, sort) ::
      Precedes(s, sort, a, b, columns, order) <==> Precedes(t, sort, a, b, columns, order)
  }

  lemma {:induction false} EnumerationFrom(sort: map<string, int>, first: string) returns (keys: seq<string>)
    requires first in sort
    ensures Enumerates(keys, sort) && keys != [] && keys[0] == first
  {
    var rest := EnumerationOf(sort - {first});
    keys := [first] + rest;
    assert forall i | 0 <= i < |rest| :: rest[i] in rest && keys[i + 1] == rest[i];
  }

  lemma {:induction false} EnumerationOf(sort: map<string, int>) returns (keys: seq<string>)
    ensures Enumerates(keys, sort)
    decreases |sort|
  {
    keys := [];
    if k :| k in sort {
      assert sort.Keys == (sort - {k}).Keys + {k};
      var rest := EnumerationOf(sort - {k});
      keys := [k] + rest;
    }
  }

  function Nested(path: seq<string>, v: Value): Value {
    if path == [] then v else Obj(map[path[0] := Nested(path[1..], v)])
  }

  function JsonWith(columns: set<string>, f: string, x: Value): Document {
    if f in columns then map[] else map[Split(f)[0] := Nested(Split(f)[1..], x)]
  }

  /** A row with the values of two fields that read different parts of it. */
  function Cross(f: string, x: Value, g: string, y: Value, columns: set<string>): Row {
    Row(map[f := x, g := y], JsonWith(columns, f, x) + JsonWith(columns, g, y))
  }

  lemma {:induction false} ExtractNested(doc: Document, path: seq<string>, v: Value)
    requires path != [] && path[0] in doc && doc[path[0]] == Nested(path[1..], v)
    ensures Extract(doc, path) == v
    decreases path
  {
    if |path| > 1 {
      ExtractNested(doc[path[0]].fields, path[1..], v);
    }
  }

  lemma {:induction false} CrossFetch(f: string, x: Value, g: string, y: Value, columns: set<string>)
    requires KeyOf(columns, f) != KeyOf(columns, g)
    ensures Fetch(RefOf(columns, f), Cross(f, x, g, y, columns)) == x
    ensures Fetch(RefOf(columns, g), Cross(f, x, g, y, columns)) == y
  {
    hide Extract, Nested;
    var data := Cross(f, x, g, y, columns).data;
    if f !in columns {
      ExtractNested(data, Split(f), x);
    }
    if g !in columns {
      ExtractNested(data, Split(g), y);
    }
  }

  lemma {:induction false} FirstDecides(keys: seq<string>, sort: map<string, int>, a: Row, b: Row,
                                        columns: set<string>, order: Order)
    requires (forall k | k in keys :: k in sort) && keys != []
    requires ByField(keys[0], sort[keys[0]], a, b, columns, order)
    requires !ByField(keys[0], sort[keys[0]], b, a, columns, order)
    ensures Precedes(keys, sort, a, b, columns, order) && !Precedes(keys, sort, b, a, columns, order)
  {
  }

  /** The order is determined exactly when there is one field to sort by, or none. */
  lemma {:induction false} DeterminedExactly(sort: map<string, int>, columns: set<string>, order: Order,
                                             low: Value, high: Value)
    requires order(low, high) && !order(high, low)
    requires forall f, g | f in sort && g in sort && f != g :: KeyOf(columns, f) != KeyOf(columns, g)
    ensures Determined(sort, columns, order) <==> |sort| <= 1
  {
    if |sort| <= 1 {
      OneEnumeration(sort);
    } else {
      hide Determined, Enumerates;
      var f :| f in sort;
      assert sort.Keys - {f} != {} by {
        assert |sort.Keys - {f}| == |sort.Keys| - 1;
      }
      var g :| g in sort.Keys - {f};
      var s := EnumerationFrom(sort, f);
      var t := EnumerationFrom(sort, g);
      TwoDisagree(sort, columns, order, low, high, s, t);
    }
  }

  /** Two rows that are told apart by two fields in opposite ways. */
  lemma {:induction false} TwoDisagree(sort: map<string, int>, columns: set<string>, order: Order, low: Value,
                                       high: Value, s: seq<string>, t: seq<string>)
    requires order(low, high) && !order(high, low)
    requires Enumerates(s, sort) && Enumerates(t, sort) && s != [] && t != [] && s[0] != t[0]
    requires KeyOf(columns, s[0]) != KeyOf(columns, t[0])
    ensures !Determined(sort, columns, order)
  {
    var f, g := s[0], t[0];
    assert f in s && g in t;
    var fLow, fHigh := if sort[f] == -1 then high else low, if sort[f] == -1 then low else high;
    var gLow, gHigh := if sort[g] == -1 then high else low, if sort[g] == -1 then low else high;
    var a, b := Cross(f, fLow, g, gHigh, columns), Cross(f, fHigh, g, gLow, columns);
    CrossFetch(f, fLow, g, gHigh, columns);
    CrossFetch(f, fHigh, g, gLow, columns);
    hide Fetch, RefOf, Cross, Precedes;
    FirstDecides(s, sort, a, b, columns, order);
    FirstDecides(t, sort, b, a, columns, order);
  }

  lemma {:induction false} OneEnumeration(sort: map<string, int>)
    requires |sort| <= 1
    ensures forall s, t | Enumerates(s, sort) && Enumerates(t, sort) :: s == t
  {
    forall s, t | Enumerates(s, sort) && Enumerates(t, sort)
      ensures s == t
    {
      EnumerationSize(s, sort);
      EnumerationSize(t, sort);
      if s != [] {
        assert s[0] in sort && s[0] in t;
      } else if t != [] {
        assert t[0] in sort && t[0] in s;
      }
    }
  }

  lemma {:induction false} EnumerationSize(keys: seq<string>, sort: map<string, int>)
    requires Enumerates(keys, sort)
    ensures |keys| == |sort|
    decreases keys
  {
    if keys == [] {
      assert sort.Keys == {};
    } else {
      var init, last := keys[..|keys| - 1], keys[|keys| - 1];
      assert last in keys && sort.Keys == (sort - {last}).Keys + {last};
      assert forall k :: k in keys <==> k in init || k == last;
      EnumerationSize(init, sort - {last});
    }
  }
}
