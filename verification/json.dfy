/**
 * JavaScript values as the core sees them: parsed JSON bodies plus the
 * `undefined` that a missing property reads as. Numbers are exact decimals;
 * objects are their own enumerable properties in insertion order.
 */
module Js {
  import opened Maybe
  import opened Text

  /** The number `unscaled / 10^scale`. */
  datatype Decimal = Decimal(unscaled: int, scale: nat)

  datatype Json =
    | Undefined
    | Null
    | Bool(b: bool)
    | Num(n: Decimal)
    | Str(s: string)
    | Arr(items: seq<Json>)
    | Obj(props: seq<Prop>)

  /** One own property of an object. */
  datatype Prop = Prop(key: string, value: Json)

  function Pow10(n: nat): (p: nat)
    ensures p >= 1
  {
    if n == 0 then 1 else 10 * Pow10(n - 1)
  }

  function Value(d: Decimal): real {
    d.unscaled as real / Pow10(d.scale) as real
  }

  /** JavaScript truthiness: `undefined`, `null`, `false`, `0` and `""` are falsy. */
  predicate Truthy(v: Json) {
    match v
    case Undefined => false
    case Null => false
    case Bool(b) => b
    case Num(d) => d.unscaled != 0
    case Str(s) => s != []
    case _ => true
  }

  predicate Nullish(v: Json) {
    v.Undefined? || v.Null?
  }

  /** `a ?? b`: the fallback replaces only a missing or `null` value. */
  function Coalesce(a: Json, b: Json): (r: Json)
    ensures !Nullish(a) ==> r == a
    ensures Nullish(a) ==> r == b
  {
    if Nullish(a) then b else a
  }

  /** `a || b`: the fallback replaces every falsy value. */
  function Or(a: Json, b: Json): (r: Json)
    ensures Truthy(a) ==> r == a
    ensures !Truthy(a) ==> r == b
  {
    if Truthy(a) then a else b
  }

  /**
   * How the two fallbacks differ: a truthy value survives both, `false`,
   * `0` and `""` survive `??` only, and a missing or `null` value survives
   * neither.
   */
  lemma CoalesceVsOr(a: Json, b: Json)
    ensures Truthy(a) ==> Coalesce(a, b) == a && Or(a, b) == a
    ensures !Nullish(a) && !Truthy(a) ==> Coalesce(a, b) == a && Or(a, b) == b
    ensures Nullish(a) ==> Coalesce(a, b) == b && Or(a, b) == b
    ensures Coalesce(Str(""), b) == Str("") && Or(Str(""), b) == b
    ensures Coalesce(Num(Decimal(0, 0)), b) == Num(Decimal(0, 0)) && Or(Num(Decimal(0, 0)), b) == b
  {
  }

  /** `v && typeof v === "object"`: arrays count, `null` does not. */
  predicate IsObjectLike(v: Json) {
    v.Arr? || v.Obj?
  }

  /** The value of the first property named `key`, or `undefined`. */
  function Lookup(props: seq<Prop>, key: string): Json {
    if props == [] then Undefined
    else if props[0].key == key then props[0].value
    else Lookup(props[1..], key)
  }

  /** A property found by name is an entry of the object. */
  lemma {:induction false} LookupFound(props: seq<Prop>, key: string)
    requires Lookup(props, key) != Undefined
    ensures exists i :: 0 <= i < |props| && props[i] == Prop(key, Lookup(props, key))
  {
    if props[0].key != key {
      LookupFound(props[1..], key);
      var i :| 0 <= i < |props[1..]| && props[1..][i] == Prop(key, Lookup(props, key));
      assert props[i + 1] == props[1..][i];
    }
  }

  /**
   * `v[key]` for the property names the core reads. Strings and arrays have
   * none of those names as own properties, so they read as `undefined`.
   */
  function Get(v: Json, key: string): Json {
    if v.Obj? then Lookup(v.props, key) else Undefined
  }

  /** `v?.[key]`: also `undefined` when `v` is nullish. */
  function GetOpt(v: Json, key: string): Json {
    Get(v, key)
  }

  function Keys(props: seq<Prop>): (ks: seq<string>)
    ensures |ks| == |props|
    ensures forall i :: 0 <= i < |props| ==> ks[i] == props[i].key
  {
    if props == [] then [] else [props[0].key] + Keys(props[1..])
  }

  predicate UniqueKeys(props: seq<Prop>) {
    forall i, j :: 0 <= i < j < |props| ==> props[i].key != props[j].key
  }

  /**
   * `o[key] = value` on a plain object (or a later property in an object
   * literal): an existing property keeps its place, a new one goes last.
   */
  function Put(props: seq<Prop>, key: string, value: Json): (r: seq<Prop>)
    ensures key in Keys(props) ==> Keys(r) == Keys(props)
    ensures key !in Keys(props) ==> Keys(r) == Keys(props) + [key]
  {
    if props == [] then [Prop(key, value)]
    else if props[0].key == key then [Prop(key, value)] + props[1..]
    else
      var rest := Put(props[1..], key, value);
      assert Keys(props) == [props[0].key] + Keys(props[1..]);
      [props[0]] + rest
  }

  /** Reading back what `Put` wrote, and everything it did not touch. */
  lemma {:induction false} LookupPut(props: seq<Prop>, key: string, value: Json, other: string)
    ensures Lookup(Put(props, key, value), key) == value
    ensures other != key ==> Lookup(Put(props, key, value), other) == Lookup(props, other)
  {
    if props != [] && props[0].key != key {
      LookupPut(props[1..], key, value, other);
    }
  }

  /** `Put` keeps keys unique. */
  lemma {:induction false} PutUnique(props: seq<Prop>, key: string, value: Json)
    requires UniqueKeys(props)
    ensures UniqueKeys(Put(props, key, value))
  {
    var r := Put(props, key, value);
    var kr := Keys(r);
    var kp := Keys(props);
    if key !in kp {
      forall i, j | 0 <= i < j < |r| ensures r[i].key != r[j].key {
        assert kr[i] == r[i].key && kr[j] == r[j].key;
        if j == |props| {
          assert kr[j] == key;
          assert kp[i] == kr[i];
        } else {
          assert kp[i] == kr[i] && kp[j] == kr[j];
        }
      }
    } else {
      forall i, j | 0 <= i < j < |r| ensures r[i].key != r[j].key {
        assert kr[i] == r[i].key && kr[j] == r[j].key;
        assert kp[i] == kr[i] && kp[j] == kr[j];
      }
    }
  }

  // ---------------------------------------------------------------------
  // String(v)

  /** `"0"` repeated `n` times. */
  function Zeros(n: nat): (r: string)
    ensures |r| == n && AllDigits(r)
  {
    if n == 0 then [] else "0" + Zeros(n - 1)
  }

  /**
   * Splits a positive integer into a significand without trailing zeros and
   * the power of ten that was stripped: `m == s * 10^t`.
   */
  function Significand(m: nat): (st: (nat, nat))
    requires m > 0
    ensures st.0 > 0 && st.0 % 10 != 0
    ensures m == st.0 * Pow10(st.1)
  {
    if m % 10 != 0 then (m, 0)
    else
      var st := Significand(m / 10);
      (st.0, st.1 + 1)
  }

  /**
   * `String(x)` for a number (ECMAScript Number::toString, radix 10): plain
   * notation for decimal exponents from -6 to 21, exponent notation outside.
   */
  function NumberText(d: Decimal): (r: string)
    ensures |r| >= 1
  {
    if d.unscaled == 0 then "0"
    else
      var sign := if d.unscaled < 0 then "-" else "";
      var m: nat := if d.unscaled < 0 then -d.unscaled else d.unscaled;
      var st := Significand(m);
      var digits := NatText(st.0);
      var k := |digits|;
      var n := k + st.1 - d.scale;
      sign +
      if k <= n <= 21 then digits + Zeros(n - k)
      else if 0 < n <= 21 then digits[..n] + "." + digits[n..]
      else if -6 < n <= 0 then "0." + Zeros(-n) + digits
      else
        var e := n - 1;
        var exp := "e" + (if e >= 0 then "+" else "-") + NatText(if e >= 0 then e else -e);
        if k == 1 then digits + exp else digits[..1] + "." + digits[1..] + exp
  }

  /** `String(v)` for every value the model represents. */
  function ToJsString(v: Json): string {
    match v
    case Undefined => "undefined"
    case Null => "null"
    case Bool(b) => if b then "true" else "false"
    case Num(d) => NumberText(d)
    case Str(s) => s
    case Arr(items) => ArrayText(items)
    case Obj(_) => "[object Object]"
  }

  /** `Array.prototype.join(",")`: `null` and `undefined` elements print as empty. */
  function ArrayText(items: seq<Json>): string
    decreases items
  {
    if items == [] then []
    else
      var head := if Nullish(items[0]) then [] else ToJsString(items[0]);
      if |items| == 1 then head else head + "," + ArrayText(items[1..])
  }
}
