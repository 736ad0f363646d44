/**
 * The JavaScript values that flow through options, reply parameters and events, with the
 * few language operations the core relies on: truthiness, property reads, the own
 * enumerable properties that `Object.assign` copies, and conversion to string.
 */
module JsValues {
  import opened Prelude
  import Decimal

  /** A JSON-like JavaScript value. Numbers are restricted to integers. */
  datatype Value =
    | Undefined
    | Null
    | Bool(b: bool)
    | Num(n: int)
    | Str(s: string)
    | Arr(items: seq<Value>)
    | Obj(fields: map<string, Value>)

  /**
   * The TypeError raised when a property is read through `undefined` or `null`, when a
   * non-string is parsed, or when strict code assigns a property to a primitive.
   */
  datatype TypeError = CannotRead(property: string) | NotAString(property: string) | CannotCreate(property: string)

  /** A computation that either returns or throws a TypeError. */
  datatype Result<+T> = Ok(value: T) | Err(error: TypeError)

  /** The parts of a URL that `url.parse(s, true)` exposes: its query object and everything else. */
  datatype UrlObject = UrlObject(location: string, query: map<string, Value>)

  /**
   * The library calls the core makes and that are outside this model: `JSON.stringify`,
   * `url.parse(_, true)` and `url.format`. They are passed in as arbitrary total functions.
   */
  datatype Lib = Lib(stringify: Value -> string, parseUrl: string -> UrlObject, formatUrl: UrlObject -> string)

  /** JavaScript's ToBoolean. */
  predicate Truthy(v: Value) {
    match v
    case Undefined => false
    case Null => false
    case Bool(b) => b
    case Num(n) => n != 0
    case Str(s) => s != ""
    case Arr(_) => true
    case Obj(_) => true
  }

  /** Reading property `k` of a plain object: `undefined` when the key is absent. */
  function Get(m: map<string, Value>, k: string): (v: Value)
    ensures k in m ==> v == m[k]
    ensures k !in m ==> v.Undefined?
  {
    if k in m then m[k] else Undefined
  }

  /** The keys "0", "1", ..., of the first `n` indices. */
  function IndexKeys(n: nat): (ks: set<string>)
    ensures forall i :: 0 <= i < n ==> Decimal.NatToString(i) in ks
  {
    if n == 0 then {} else IndexKeys(n - 1) + {Decimal.NatToString(n - 1)}
  }

  /** The index-keyed properties "0", "1", ... of an array or string. */
  function IndexProps(xs: seq<Value>): (m: map<string, Value>)
    ensures m.Keys == IndexKeys(|xs|)
    ensures forall i :: 0 <= i < |xs| ==> m[Decimal.NatToString(i)] == xs[i]
    decreases |xs|
  {
    if xs == [] then map[]
    else
      var last := |xs| - 1;
      var prev := IndexProps(xs[..last]);
      assert forall i :: 0 <= i < last ==> Decimal.NatToString(i) != Decimal.NatToString(last) by {
        forall i | 0 <= i < last {
          Decimal.NatToStringInjective(i, last);
        }
      }
      prev[Decimal.NatToString(last) := xs[last]]
  }

  /** The characters of a string, each as a one-character string value. */
  function Chars(s: string): (r: seq<Value>)
    ensures |r| == |s| && forall i :: 0 <= i < |s| ==> r[i] == Str([s[i]])
  {
    seq(|s|, i requires 0 <= i < |s| => Str([s[i]]))
  }

  /**
   * The own enumerable properties of `v`, which is what `Object.assign` copies from a
   * source: the fields of an object, the indices of an array or string, and nothing for
   * `undefined`, `null`, booleans and numbers.
   */
  function OwnProps(v: Value): (m: map<string, Value>)
    ensures v.Obj? ==> m == v.fields
    ensures !v.Obj? && !v.Arr? && !v.Str? ==> m == map[]
    ensures v.Arr? ==> m == IndexProps(v.items) && |m| == |v.items|
    ensures v.Arr? ==> forall i :: 0 <= i < |v.items| ==> m[Decimal.NatToString(i)] == v.items[i]
    ensures v.Str? ==> m == IndexProps(Chars(v.s)) && m.Keys == IndexKeys(|v.s|)
    ensures v.Str? ==> forall i :: 0 <= i < |v.s| ==> m[Decimal.NatToString(i)] == Str([v.s[i]])
  {
    match v
    case Obj(fields) => fields
    case Arr(items) => IndexPropsSize(items); IndexProps(items)
    case Str(s) => IndexProps(Chars(s))
    case _ => map[]
  }

  lemma {:induction false} IndexPropsSize(xs: seq<Value>)
    ensures |IndexProps(xs)| == |xs|
    decreases |xs|
  {
    if xs != [] {
      var last := |xs| - 1;
      IndexPropsSize(xs[..last]);
      IndexKeysFresh(last);
    }
  }

  lemma {:induction false} IndexKeysFresh(n: nat)
    ensures Decimal.NatToString(n) !in IndexKeys(n)
  {
    if n > 0 {
      IndexKeysFresh(n - 1);
      Decimal.NatToStringInjective(n - 1, n);
      if Decimal.NatToString(n) in IndexKeys(n - 1) {
        IndexKeysBelow(n - 1, Decimal.NatToString(n));
        var i :| 0 <= i < n - 1 && Decimal.NatToString(n) == Decimal.NatToString(i);
        Decimal.NatToStringInjective(i, n);
      }
    }
  }

  lemma {:induction false} IndexKeysBelow(n: nat, k: string)
    requires k in IndexKeys(n)
    ensures exists i :: 0 <= i < n && k == Decimal.NatToString(i)
  {
    if k != Decimal.NatToString(n - 1) {
      IndexKeysBelow(n - 1, k);
      var i :| 0 <= i < n - 1 && k == Decimal.NatToString(i);
    }
  }

  /** `Object.assign(target, source)` on a fresh target: source keys overwrite target keys. */
  function Assign(target: map<string, Value>, source: Value): (m: map<string, Value>)
    ensures m.Keys == target.Keys + OwnProps(source).Keys
    ensures forall k :: k in OwnProps(source) ==> m[k] == OwnProps(source)[k]
    ensures forall k :: k in target && k !in OwnProps(source) ==> m[k] == target[k]
  {
    target + OwnProps(source)
  }

  /** JavaScript's ToString, as template literals and string concatenation apply it. */
  function ToJsString(v: Value): string {
    match v
    case Undefined => "undefined"
    case Null => "null"
    case Bool(b) => if b then "true" else "false"
    case Num(n) => Decimal.IntToString(n)
    case Str(s) => s
    case Arr(items) => JoinItems(items)
    case Obj(_) => "[object Object]"
  }

  /** `Array.prototype.join(",")`: `undefined` and `null` elements become empty. */
  function JoinItems(items: seq<Value>): string
    decreases items
  {
    if items == [] then ""
    else
      var head := if items[0].Undefined? || items[0].Null? then "" else ToJsString(items[0]);
      if |items| == 1 then head else head + "," + JoinItems(items[1..])
  }

}
