/**
 * The JavaScript values a decoded `package.json` or `package-lock.json`
 * holds, with `undefined` added for the missing properties the code reads,
 * and the few operators of the language the codecs rely on: property
 * access, `??`, truthiness, string conversion and spreading.
 */
module JsValues {
  import opened Wrappers
  import opened Records

  datatype Value =
    | Undefined
    | Null
    | Bool(b: bool)
    | Num(n: int)
    | Str(s: string)
    | Arr(items: seq<Value>)
    | Obj(props: Props<Value>)

  /** A JavaScript object shared by reference, whose properties the code updates in place. */
  class JsObject {
    var props: Props<Value>

    constructor (props: Props<Value>)
      ensures this.props == props
    {
      this.props := props;
    }
  }

  /** What a call throws: an `Error` with its message, or an error raised by the engine itself. */
  datatype Thrown =
    | Error(message: string)
    | TypeError   // property access on null or undefined
    | RangeError  // maximum call stack size exceeded

  type Outcome<T> = Result<T, Thrown>

  /** `v == null`, the loose comparison the code uses for "absent". */
  predicate IsNullish(v: Value) {
    v.Undefined? || v.Null?
  }

  /** `v[k]` when v is not null or undefined. */
  function Get(v: Value, k: string): Value {
    if v.Obj? then Lookup(v.props, k).GetOr(Undefined) else Undefined
  }

  /** `v[k]`, with the TypeError JavaScript throws when v is null or undefined. */
  function Member(v: Value, k: string): (r: Outcome<Value>)
    ensures r.Failure? <==> IsNullish(v)
    ensures r.Success? ==> r.value == Get(v, k)
  {
    if IsNullish(v) then Failure(TypeError) else Success(Get(v, k))
  }

  /** `a ?? b`. */
  function Coalesce(a: Value, b: Value): Value {
    if IsNullish(a) then b else a
  }

  /** The own string-keyed properties `{...v}` copies. */
  function OwnProps(v: Value): Props<Value> {
    if v.Obj? then v.props else []
  }

  /** `Object.keys(v)`. */
  function ObjectKeys(v: Value): seq<string> {
    Keys(OwnProps(v))
  }

  /** The truth value `if (v)` tests. */
  predicate Truthy(v: Value) {
    match v
    case Undefined => false
    case Null => false
    case Bool(b) => b
    case Num(n) => n != 0
    case Str(s) => s != ""
    case Arr(_) => true
    case Obj(_) => true
  }

  function DigitChar(d: nat): char
    requires d < 10
  {
    "0123456789"[d]
  }

  function NatToString(n: nat): string
    decreases n
  {
    if n < 10 then [DigitChar(n)] else NatToString(n / 10) + [DigitChar(n % 10)]
  }

  /** `String(v)`, which a template literal and a computed property key both apply. */
  function ToJsString(v: Value): string {
    match v
    case Undefined => "undefined"
    case Null => "null"
    case Bool(b) => if b then "true" else "false"
    case Num(n) => if n < 0 then "-" + NatToString(-n) else NatToString(n)
    case Str(s) => s
    case Arr(items) => JoinItems(items)
    case Obj(_) => "[object Object]"
  }

  /** `Array.prototype.join(",")`: null and undefined elements become empty strings. */
  function JoinItems(items: seq<Value>): string
    decreases items
  {
    if items == [] then ""
    else
      var first := if IsNullish(items[0]) then "" else ToJsString(items[0]);
      if |items| == 1 then first else first + "," + JoinItems(items[1..])
  }

  /** Every object inside the value has distinct keys, as every decoded JSON value does. */
  ghost predicate WellFormed(v: Value) {
    match v
    case Obj(p) => DistinctKeys(p) && forall i :: 0 <= i < |p| ==> WellFormed(p[i].1)
    case Arr(xs) => forall i :: 0 <= i < |xs| ==> WellFormed(xs[i])
    case _ => true
  }

  /**
   * Deep equality that ignores the order of object keys, the equality a
   * `deep.equal` assertion checks: the same keys, and under each key values
   * that are again deep-equal.
   */
  ghost predicate Equiv(a: Value, b: Value) {
    match a
    case Obj(p) =>
      && b.Obj?
      && (forall k :: Has(p, k) <==> Has(b.props, k))
      && forall i, j :: 0 <= i < |p| && 0 <= j < |b.props| && p[i].0 == b.props[j].0 ==> Equiv(p[i].1, b.props[j].1)
    case Arr(xs) =>
      && b.Arr?
      && |xs| == |b.items|
      && forall i :: 0 <= i < |xs| ==> Equiv(xs[i], b.items[i])
    case _ => a == b
  }

  lemma {:induction false} EquivReflexive(a: Value)
    requires WellFormed(a)
    ensures Equiv(a, a)
  {
    match a
    case Obj(p) =>
      forall i, j | 0 <= i < |p| && 0 <= j < |p| && p[i].0 == p[j].0 ensures Equiv(p[i].1, p[j].1) {
        assert i == j;
        EquivReflexive(p[i].1);
      }
    case Arr(xs) =>
      forall i | 0 <= i < |xs| ensures Equiv(xs[i], xs[i]) {
        EquivReflexive(xs[i]);
      }
    case _ =>
  }

  /** Two objects with the same entries in any order are deep-equal. */
  lemma SameEntriesEquiv(p: Props<Value>, q: Props<Value>)
    requires DistinctKeys(p) && WellFormed(Obj(q)) && SameEntries(p, q)
    ensures Equiv(Obj(p), Obj(q))
  {
    forall k ensures Has(p, k) <==> Has(q, k) {
      LookupHas(p, k);
      LookupHas(q, k);
      assert Lookup(p, k) == Lookup(q, k);
    }
    forall i, j | 0 <= i < |p| && 0 <= j < |q| && p[i].0 == q[j].0 ensures Equiv(p[i].1, q[j].1) {
      LookupAt(p, i);
      LookupAt(q, j);
      assert Lookup(p, p[i].0) == Lookup(q, q[j].0);
      EquivReflexive(q[j].1);
    }
  }

  lemma WellFormedGet(v: Value, k: string)
    requires WellFormed(v)
    ensures WellFormed(Get(v, k))
  {
    if v.Obj? && Lookup(v.props, k).Some? {
      LookupHas(v.props, k);
      var i :| 0 <= i < |v.props| && v.props[i] == (k, Lookup(v.props, k).value);
    }
  }

  lemma WellFormedOwnProps(v: Value)
    requires WellFormed(v)
    ensures WellFormed(Obj(OwnProps(v)))
  {
  }

  lemma DistinctObjectKeys(v: Value)
    requires WellFormed(v)
    ensures forall i, j :: 0 <= i < j < |ObjectKeys(v)| ==> ObjectKeys(v)[i] != ObjectKeys(v)[j]
  {
  }
}
