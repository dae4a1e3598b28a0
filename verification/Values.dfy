/** The JSON-like values a query, an update or a document is made of, and the
    stock result types. */
module Values {

  datatype Option<+T> = None | Some(value: T) {
    predicate IsFailure() { None? }

    function PropagateFailure<U>(): Option<U>
      requires None?
    {
      None
    }

    function Extract(): T
      requires Some?
    {
      value
    }
  }

  /** `NilArr` is the slice a filter that keeps nothing leaves behind: an array
      without elements that is encoded as JSON `null`, unlike `Arr([])`. */
  datatype Value =
    | Null
    | Bool(b: bool)
    | Num(n: real)
    | Str(s: string)
    | Arr(items: seq<Value>)
    | NilArr
    | Obj(fields: map<string, Value>)
  {
    predicate IsScalar() {
      Bool? || Num? || Str?
    }

    predicate IsArray() {
      Arr? || NilArr?
    }

    function Elements(): seq<Value>
      requires IsArray()
    {
      if Arr? then items else []
    }
  }

  type Document = map<string, Value>

  /** How Go prints a value with `%v`; a parameter wherever the code relies on it. */
  type Format = Value -> string

  /** Strings in the order of their characters. */
  predicate StringLess(a: string, b: string) {
    if a == [] then b != []
    else b != [] && (a[0] < b[0] || (a[0] == b[0] && StringLess(a[1..], b[1..])))
  }

  /** The order within one type; values of different types are unordered. */
  predicate Less(a: Value, b: Value): (less: bool)
    ensures a.Num? && b.Num? ==> (less <==> a.n < b.n)
  {
    match (a, b)
    case (Num(x), Num(y)) => x < y
    case (Str(x), Str(y)) => StringLess(x, y)
    case (Bool(x), Bool(y)) => !x && y
    case _ => false
  }

  predicate HasPrefix(s: string, prefix: string) {
    prefix <= s
  }

  predicate HasSuffix(s: string, suffix: string) {
    |suffix| <= |s| && s[|s| - |suffix|..] == suffix
  }

  /** True when `order` lists every key of `m` once: one possible iteration. */
  ghost predicate Enumerates<V>(order: seq<string>, m: map<string, V>) {
    && (forall i, j | 0 <= i < j < |order| :: order[i] != order[j])
    && (forall k :: k in m <==> k in order)
  }

  lemma {:induction false} ConcatAssociates<T>(a: seq<T>, b: seq<T>, c: seq<T>)
    ensures a + (b + c) == a + b + c
  {
  }

  lemma {:induction false} ConcatRightmost<T>(a: seq<T>, b: seq<T>, c: seq<T>, d: seq<T>)
    ensures a + b + c + d == a + (b + (c + d))
  {
  }
}
