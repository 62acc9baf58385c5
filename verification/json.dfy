/** The JavaScript values the application reads out of request bodies, the
    request file and model replies: what `JSON.parse` can produce, plus
    `undefined` for a property that is not there. Numbers are integers. */
module Json {
  import opened Wrappers
  import Text

  datatype Value =
    | Undefined
    | Null
    | Bool(b: bool)
    | Num(n: int)
    | Str(s: string)
    | Arr(elems: seq<Value>)
    | Obj(fields: map<string, Value>)

  /** JavaScript truthiness: `undefined`, `null`, `false`, `0` and `""` are falsy. */
  predicate Truthy(v: Value) {
    match v
    case Undefined => false
    case Null => false
    case Bool(b) => b
    case Num(n) => n != 0
    case Str(s) => |s| > 0
    case Arr(_) => true
    case Obj(_) => true
  }

  /** Property read `v[key]` for the plain data keys the application uses;
      a missing key, or any key of a non-object, reads as `undefined`. */
  function Get(v: Value, key: string): (r: Value)
    ensures v.Obj? && key in v.fields ==> r == v.fields[key]
    ensures !(v.Obj? && key in v.fields) ==> r == Undefined
  {
    match v
    case Obj(m) => if key in m then m[key] else Undefined
    case _ => Undefined
  }

  /** Property read along a path of keys, `v.k1.k2…`, stopping at `undefined`. */
  function Path(v: Value, keys: seq<string>): Value
    decreases |keys|
  {
    if |keys| == 0 then v else Path(Get(v, keys[0]), keys[1..])
  }

  /** The own enumerable properties `{...v}` copies: an object's fields, and
      nothing for the other values the application spreads. */
  function Fields(v: Value): map<string, Value> {
    if v.Obj? then v.fields else map[]
  }

  /** `String(v)`, as used by template literals. */
  function ToJsString(v: Value): string {
    match v
    case Undefined => "undefined"
    case Null => "null"
    case Bool(b) => if b then "true" else "false"
    case Num(n) => Text.IntToString(n)
    case Str(s) => s
    case Arr(es) => JoinValues(es, ",")
    case Obj(_) => "[object Object]"
  }

  /** `Array.prototype.join`: `null` and `undefined` elements render as "". */
  function JoinValues(es: seq<Value>, sep: string): string
    decreases es, 0
  {
    if |es| == 0 then ""
    else
      var first := if es[0].Null? || es[0].Undefined? then "" else ToJsString(es[0]);
      if |es| == 1 then first else first + sep + JoinValues(es[1..], sep)
  }

  /** A JSON array of strings. */
  function StrArr(ss: seq<string>): (r: Value)
    ensures r.Arr? && |r.elems| == |ss|
    ensures forall i :: 0 <= i < |ss| ==> r.elems[i] == Str(ss[i])
  {
    Arr(seq(|ss|, i requires 0 <= i < |ss| => Str(ss[i])))
  }

  /** Joining an array of strings renders exactly the strings, like `Text.Join`. */
  lemma {:induction false} JoinStrArr(ss: seq<string>, sep: string)
    ensures JoinValues(StrArr(ss).elems, sep) == Text.Join(ss, sep)
  {
    if |ss| > 1 {
      assert StrArr(ss).elems[1..] == StrArr(ss[1..]).elems;
      JoinStrArr(ss[1..], sep);
    }
  }

  /** `BigInt(v)`: integers and booleans convert directly; strings go through the
      engine's string-to-BigInt parser, given here as `ofString`; arrays and
      objects are first rendered with `String`; `undefined` and `null` throw. */
  function ToBigInt(v: Value, ofString: string -> Option<int>): (r: Option<int>)
  {
    match v
    case Undefined => None
    case Null => None
    case Bool(b) => Some(if b then 1 else 0)
    case Num(n) => Some(n)
    case Str(s) => ofString(s)
    case _ => ofString(ToJsString(v))
  }
}
